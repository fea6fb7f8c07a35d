/**
 What the visit of `order_sources` (`scripts/vendor_opentitan_ip.py`) promises on cyclic graphs, exactly: what one
 visit emits, and which packages come before which under every order of the package and dependency lists.
 */
module PackageLimits {

  import opened Basics
  import opened PackageOrder

  // ---- what a visit emits --------------------------------------------------------------------------------------

  /** `x` can be reached from `f` by a path without any of `stack`. */
  ghost predicate ReachesAvoiding(deps: Graph, f: Package, x: Package, stack: seq<Package>) {
    exists p :: PathAvoiding(deps, p, stack) && p[0] == f && p[|p| - 1] == x
  }

  predicate PathAvoiding(deps: Graph, p: seq<Package>, stack: seq<Package>) {
    p != [] && Path(deps, p) && forall i :: 0 <= i < |p| ==> p[i] !in stack
  }

  /** What an emitted package refers to is emitted too, or its visit is under way. */
  predicate Complete(deps: Graph, stack: seq<Package>, order: seq<Package>) {
    forall o, x :: o in order && o in deps && x in deps[o] ==> x in order || x in stack
  }

  predicate Started(deps: Graph, stack: seq<Package>, order: seq<Package>) {
    Complete(deps, stack, order) && Unseen(deps, stack, order) && forall o :: o in order ==> o in deps
  }

  lemma {:induction false} CompleteHolds(deps: Graph, stack: seq<Package>, order: seq<Package>, p: seq<Package>)
    requires Complete(deps, stack, order) && PathAvoiding(deps, p, stack) && p[0] in order
    ensures p[|p| - 1] in order
  {
    if |p| > 1 {
      var q := p[..|p| - 1];
      CompleteHolds(deps, stack, order, q);
      assert p[|p| - 2 + 1] in deps[p[|p| - 2]];
    }
  }

  lemma AvoidingSelf(deps: Graph, f: Package, stack: seq<Package>)
    requires f in deps && f !in stack
    ensures ReachesAvoiding(deps, f, f, stack)
  {
    assert PathAvoiding(deps, [f], stack) && [f][0] == f && [f][|[f]| - 1] == f;
  }

  lemma AvoidingStep(deps: Graph, f: Package, g: Package, x: Package, stack: seq<Package>)
    requires f in deps && g in deps[f] && f !in stack && ReachesAvoiding(deps, g, x, stack + [f])
    ensures ReachesAvoiding(deps, f, x, stack)
  {
    var p :| PathAvoiding(deps, p, stack + [f]) && p[0] == g && p[|p| - 1] == x;
    var q := [f] + p;
    assert forall s :: s in stack ==> s in stack + [f];
    assert PathAvoiding(deps, q, stack) && q[0] == f && q[|q| - 1] == x;
  }

  /** A visit of `f` below `stack` emits exactly what can be reached from `f` without passing through a visit that is
      under way. */
  lemma {:induction false} VisitedExactly(deps: Graph, f: Package, stack: seq<Package>, order: seq<Package>)
    requires Closed(deps) && f in deps && Started(deps, stack, order)
    ensures var r := Visited(deps, f, stack, order);
            Started(deps, stack, r) && forall x :: x in r <==> x in order || ReachesAvoiding(deps, f, x, stack)
    decreases |deps.Keys - (set s | s in stack)|, 0
  {
    var r := Visited(deps, f, stack, order);
    if f in order || f in stack {
      forall x | ReachesAvoiding(deps, f, x, stack) ensures x in order {
        var p :| PathAvoiding(deps, p, stack) && p[0] == f && p[|p| - 1] == x;
        CompleteHolds(deps, stack, order, p);
      }
    } else {
      NewVisit(deps, f, stack, order);
    }
  }

  lemma {:induction false} NewVisit(deps: Graph, f: Package, stack: seq<Package>, order: seq<Package>)
    requires Closed(deps) && f in deps && Started(deps, stack, order) && f !in order && f !in stack
    ensures var r := Visited(deps, f, stack, order);
            Started(deps, stack, r) && forall x :: x in r <==> x in order || ReachesAvoiding(deps, f, x, stack)
    decreases |deps.Keys - (set s | s in stack)|, 0, 0
  {
    hide ReachesAvoiding, Path;
    var below := stack + [f];
    StackGrows(deps, stack, f);
    AllExactly(deps, deps[f], below, order);
    var mid := VisitedAll(deps, deps[f], below, order);
    var r := mid + [f];
    forall g | g in deps[f] ensures g in mid || g in below {
      if g !in below {
        AvoidingSelf(deps, g, below);
      }
    }
    assert Started(deps, stack, r);
    AvoidingSelf(deps, f, stack);
    forall x | x in mid && x !in order ensures ReachesAvoiding(deps, f, x, stack) {
      var g :| g in deps[f] && ReachesAvoiding(deps, g, x, below);
      AvoidingStep(deps, f, g, x, stack);
    }
    forall x | ReachesAvoiding(deps, f, x, stack) ensures x in r {
      ReachedIsEmitted(deps, f, x, stack, r);
    }
  }

  lemma ReachedIsEmitted(deps: Graph, f: Package, x: Package, stack: seq<Package>, r: seq<Package>)
    requires Complete(deps, stack, r) && f in r && ReachesAvoiding(deps, f, x, stack)
    ensures x in r
  {
    var p :| PathAvoiding(deps, p, stack) && p[0] == f && p[|p| - 1] == x;
    CompleteHolds(deps, stack, r, p);
  }

  lemma {:induction false} AllExactly(deps: Graph, gs: seq<Package>, stack: seq<Package>, order: seq<Package>)
    requires Closed(deps) && (forall g :: g in gs ==> g in deps) && Started(deps, stack, order)
    ensures var r := VisitedAll(deps, gs, stack, order);
            Started(deps, stack, r) && forall x :: x in r <==>
                x in order || exists g :: g in gs && ReachesAvoiding(deps, g, x, stack)
    decreases |deps.Keys - (set s | s in stack)|, |gs| + 1
  {
    if gs != [] {
      hide ReachesAvoiding, Started, Visited;
      var g, init := gs[|gs| - 1], gs[..|gs| - 1];
      assert gs == init + [g];
      AllExactly(deps, init, stack, order);
      VisitedExactly(deps, g, stack, VisitedAll(deps, init, stack, order));
    }
  }

  // ---- every order of the packages --------------------------------------------------------------------------------

  /** The same dependencies, listed in any order. */
  ghost predicate Relisted(deps: Graph, deps': Graph) {
    deps'.Keys == deps.Keys && forall f, x :: f in deps ==> (x in deps'[f] <==> x in deps[f])
  }

  /** Each package once, in any order. */
  ghost predicate Lists(deps: Graph, pkgs: seq<Package>) {
    Distinct(pkgs) && forall f :: f in pkgs <==> f in deps
  }

  /** The members of `s`, in the order of `pkgs`. */
  function Chosen(pkgs: seq<Package>, s: seq<Package>): seq<Package> {
    if pkgs == [] then []
    else Chosen(pkgs[..|pkgs| - 1], s) + if pkgs[|pkgs| - 1] in s then [pkgs[|pkgs| - 1]] else []
  }

  /** The program's lists: every dependency list is sorted by the one order of the packages. */
  function Sorted(deps: Graph, pkgs: seq<Package>): Graph {
    map f | f in deps :: Chosen(pkgs, deps[f])
  }

  lemma {:induction false} ChosenMembers(pkgs: seq<Package>, s: seq<Package>, x: Package)
    ensures x in Chosen(pkgs, s) <==> x in pkgs && x in s
  {
    if pkgs != [] {
      ChosenMembers(pkgs[..|pkgs| - 1], s, x);
      assert pkgs == pkgs[..|pkgs| - 1] + [pkgs[|pkgs| - 1]];
    }
  }

  lemma {:induction false} ChosenJoin(a: seq<Package>, b: seq<Package>, s: seq<Package>)
    ensures Chosen(a + b, s) == Chosen(a, s) + Chosen(b, s)
  {
    if b == [] {
      assert a + b == a;
    } else {
      var init := b[..|b| - 1];
      ChosenJoin(a, init, s);
      assert (a + b)[..|a + b| - 1] == a + init;
    }
  }

  lemma SortedIsRelisted(deps: Graph, pkgs: seq<Package>)
    requires Closed(deps) && Lists(deps, pkgs)
    ensures Relisted(deps, Sorted(deps, pkgs)) && Closed(Sorted(deps, pkgs))
  {
    forall f, x | f in deps ensures x in Sorted(deps, pkgs)[f] <==> x in deps[f] {
      ChosenMembers(pkgs, deps[f], x);
    }
  }

  /** `g` is emitted before `f` whatever the order of the packages. */
  ghost predicate AlwaysBefore(deps: Graph, g: Package, f: Package)
    requires Closed(deps)
  {
    forall pkgs :: Lists(deps, pkgs) ==> ComesBefore(deps, pkgs, g, f)
  }

  /** `g` is emitted before `f` when the packages are in the order `pkgs`. */
  ghost predicate ComesBefore(deps: Graph, pkgs: seq<Package>, g: Package, f: Package)
    requires Closed(deps) && Lists(deps, pkgs)
  {
    SortedIsRelisted(deps, pkgs);
    Before(VisitedAll(Sorted(deps, pkgs), pkgs, [], []), g, f)
  }

  predicate SimplePathTo(deps: Graph, p: seq<Package>, f: Package) {
    p != [] && Path(deps, p) && Distinct(p) && p[|p| - 1] == f
  }

  /** However `f` is reached, `g` can be reached from it without what is on the way. */
  ghost predicate NeedsAnyway(deps: Graph, f: Package, g: Package) {
    forall p :: SimplePathTo(deps, p, f) ==> ReachesAvoiding(deps, f, g, p[..|p| - 1])
  }

  lemma RelistedEdges(deps: Graph, deps': Graph)
    requires Relisted(deps, deps') && Closed(deps)
    ensures Closed(deps') && forall f, x :: f in deps ==> (x in deps'[f] <==> x in deps[f])
  {
  }

  lemma RelistedPath(deps: Graph, deps': Graph, p: seq<Package>)
    requires Relisted(deps, deps') && Closed(deps)
    ensures Path(deps', p) <==> Path(deps, p)
  {
    RelistedEdges(deps, deps');
  }

  lemma RelistedReaches(deps: Graph, deps': Graph, f: Package, x: Package, stack: seq<Package>)
    requires Relisted(deps, deps') && Closed(deps)
    ensures ReachesAvoiding(deps', f, x, stack) <==> ReachesAvoiding(deps, f, x, stack)
  {
    hide Path, Relisted;
    if p :| PathAvoiding(deps', p, stack) && p[0] == f && p[|p| - 1] == x {
      RelistedPath(deps, deps', p);
      assert PathAvoiding(deps, p, stack);
    }
    if p :| PathAvoiding(deps, p, stack) && p[0] == f && p[|p| - 1] == x {
      RelistedPath(deps, deps', p);
      assert PathAvoiding(deps', p, stack);
    }
  }

  lemma RelistedNeeds(deps: Graph, deps': Graph, f: Package, g: Package)
    requires Relisted(deps, deps') && Closed(deps) && NeedsAnyway(deps, f, g)
    ensures NeedsAnyway(deps', f, g)
  {
    hide ReachesAvoiding, Path, Relisted;
    forall p | SimplePathTo(deps', p, f) ensures ReachesAvoiding(deps', f, g, p[..|p| - 1]) {
      RelistedPath(deps, deps', p);
      RelistedReaches(deps, deps', f, g, p[..|p| - 1]);
    }
  }

  // ---- needed anyway is enough ------------------------------------------------------------------------------------

  predicate InOrder(order: seq<Package>, g: Package, f: Package) {
    f in order ==> Before(order, g, f)
  }

  lemma {:induction false} VisitOrders(deps: Graph, x: Package, stack: seq<Package>, order: seq<Package>, f: Package,
                                       g: Package)
    requires Closed(deps) && x in deps && Started(deps, stack, order) && f != g && NeedsAnyway(deps, f, g)
    requires Path(deps, stack + [x]) && Distinct(stack) && InOrder(order, g, f)
    ensures InOrder(Visited(deps, x, stack, order), g, f)
    decreases |deps.Keys - (set s | s in stack)|, 0
  {
    if x !in order && x !in stack {
      var below := stack + [x];
      StackGrows(deps, stack, x);
      StackStarted(deps, x, stack, order);
      DistinctJoin(stack, [x]);
      forall y | y in deps[x] ensures Path(deps, below + [y]) { PathGrows(deps, below, y); }
      hide ReachesAvoiding, Path, NeedsAnyway, Visited, Before;
      AllOrder(deps, deps[x], below, order, f, g);
      VisitUnfolds(deps, x, stack, order);
      Emits(deps, x, stack, order, VisitedAll(deps, deps[x], below, order), f, g);
    }
  }

  lemma VisitUnfolds(deps: Graph, x: Package, stack: seq<Package>, order: seq<Package>)
    requires Closed(deps) && x in deps && x !in order && x !in stack
    ensures Visited(deps, x, stack, order) == VisitedAll(deps, deps[x], stack + [x], order) + [x]
  {
  }

  lemma StackStarted(deps: Graph, x: Package, stack: seq<Package>, order: seq<Package>)
    requires Started(deps, stack, order) && x in deps && x !in order
    ensures Started(deps, stack + [x], order)
  {
  }

  lemma PathGrows(deps: Graph, p: seq<Package>, y: Package)
    requires Closed(deps) && Path(deps, p) && y in deps[p[|p| - 1]]
    ensures Path(deps, p + [y])
  {
    var q := p + [y];
    forall i | 0 <= i < |q| - 1 ensures q[i] in deps && q[i + 1] in deps[q[i]] {
      if i < |p| - 1 {
        assert p[i + 1] in deps[p[i]];
      }
    }
  }

  /** The last step of a visit: `x` itself is emitted. */
  lemma Emits(deps: Graph, x: Package, stack: seq<Package>, order: seq<Package>, mid: seq<Package>, f: Package,
              g: Package)
    requires Closed(deps) && x in deps && Started(deps, stack, order) && f != g && NeedsAnyway(deps, f, g)
    requires Path(deps, stack + [x]) && Distinct(stack + [x]) && x !in order && x !in stack
    requires Visited(deps, x, stack, order) == mid + [x] && InOrder(mid, g, f)
    ensures InOrder(mid + [x], g, f)
  {
    hide Path, Visited, VisitedAll;
    if x == f {
      assert SimplePathTo(deps, stack + [x], f) && (stack + [x])[..|stack|] == stack;
      hide SimplePathTo;
      assert ReachesAvoiding(deps, f, g, stack);
      VisitedExactly(deps, f, stack, order);
      assert g in mid + [x] && g in mid;
      var i :| 0 <= i < |mid| && mid[i] == g;
      assert (mid + [x])[i] == g && (mid + [x])[|mid|] == f;
    } else if f in mid {
      BeforeKept(mid, x, g, f);
    }
  }

  lemma {:induction false} AllOrder(deps: Graph, gs: seq<Package>, stack: seq<Package>, order: seq<Package>,
                                    f: Package, g: Package)
    requires Closed(deps) && (forall y :: y in gs ==> y in deps && Path(deps, stack + [y]))
    requires Started(deps, stack, order) && f != g && NeedsAnyway(deps, f, g) && Distinct(stack) && InOrder(order, g, f)
    ensures InOrder(VisitedAll(deps, gs, stack, order), g, f)
    decreases |deps.Keys - (set s | s in stack)|, |gs| + 1
  {
    if gs != [] {
      hide Path, Started, NeedsAnyway, InOrder, Visited, Distinct, ReachesAvoiding;
      var y, init := gs[|gs| - 1], gs[..|gs| - 1];
      assert gs == init + [y];
      AllOrder(deps, init, stack, order, f, g);
      AllExactly(deps, init, stack, order);
      VisitOrders(deps, y, stack, VisitedAll(deps, init, stack, order), f, g);
    }
  }

  lemma NothingStarted(deps: Graph)
    ensures Started(deps, [], [])
  {
  }

  lemma NeededIsBefore(deps: Graph, pkgs: seq<Package>, f: Package, g: Package)
    requires Closed(deps) && Lists(deps, pkgs) && f in deps && f != g && NeedsAnyway(deps, f, g)
    ensures Before(VisitedAll(deps, pkgs, [], []), g, f)
  {
    forall y | y in pkgs ensures y in deps && Path(deps, [] + [y]) {
      assert [] + [y] == [y];
    }
    assert f in pkgs;
    hide NeedsAnyway, ReachesAvoiding, Path, Before, Lists, Closed, Visited, VisitedAll, Good, Started;
    NothingStarted(deps);
    PackagesInOrder(deps, pkgs);
    AllOrder(deps, pkgs, [], [], f, g);
  }

  // ---- and it is necessary --------------------------------------------------------------------------------------

  lemma {:induction false} VisitExtends(deps: Graph, f: Package, stack: seq<Package>, order: seq<Package>)
    requires Closed(deps) && f in deps
    ensures order <= Visited(deps, f, stack, order)
    decreases |deps.Keys - (set s | s in stack)|, 0
  {
    if f !in order && f !in stack {
      StackGrows(deps, stack, f);
      AllExtend(deps, deps[f], stack + [f], order);
    }
  }

  lemma {:induction false} AllExtend(deps: Graph, gs: seq<Package>, stack: seq<Package>, order: seq<Package>)
    requires Closed(deps) && (forall g :: g in gs ==> g in deps)
    ensures order <= VisitedAll(deps, gs, stack, order)
    ensures gs != [] ==> Visited(deps, gs[0], stack, order) <= VisitedAll(deps, gs, stack, order)
    decreases |deps.Keys - (set s | s in stack)|, |gs| + 1
  {
    if gs != [] {
      var g, init := gs[|gs| - 1], gs[..|gs| - 1];
      AllExtend(deps, init, stack, order);
      VisitExtends(deps, g, stack, VisitedAll(deps, init, stack, order));
    }
  }

  lemma {:induction false} PartExtends(deps: Graph, gs: seq<Package>, k: nat, stack: seq<Package>, order: seq<Package>)
    requires Closed(deps) && (forall g :: g in gs ==> g in deps) && k <= |gs|
    ensures VisitedAll(deps, gs[..k], stack, order) <= VisitedAll(deps, gs, stack, order)
    decreases |gs|
  {
    if k < |gs| {
      var g, init := gs[|gs| - 1], gs[..|gs| - 1];
      PartExtends(deps, init, k, stack, order);
      assert init[..k] == gs[..k];
      VisitExtends(deps, g, stack, VisitedAll(deps, init, stack, order));
    } else {
      assert gs[..k] == gs;
    }
  }

  lemma {:induction false} NothingNew(deps: Graph, gs: seq<Package>, stack: seq<Package>, order: seq<Package>)
    requires Closed(deps) && forall g :: g in gs ==> g in deps && g in stack
    ensures VisitedAll(deps, gs, stack, order) == order
  {
    if gs != [] {
      NothingNew(deps, gs[..|gs| - 1], stack, order);
    }
  }

  /** When the packages of a path come first, the dependencies of each before the next one on the path are behind it
      on the path. */
  lemma LeadsOn(deps: Graph, p: seq<Package>, rest: seq<Package>, i: nat)
    returns (pre: seq<Package>, post: seq<Package>)
    requires Path(deps, p) && i < |p| - 1
    ensures Chosen(p + rest, deps[p[i]]) == pre + [p[i + 1]] + post && forall x :: x in pre ==> x in p[..i + 1]
  {
    var s, next := deps[p[i]], p[i + 1];
    assert next in s;
    pre, post := Chosen(p[..i + 1], s), Chosen(p[i + 2..] + rest, s);
    ChosenJoin(p[..i + 1], [next], s);
    ChosenJoin(p[..i + 1] + [next], p[i + 2..] + rest, s);
    assert p + rest == p[..i + 1] + [next] + (p[i + 2..] + rest);
    assert [next][..0] == [];
    forall x | x in pre ensures x in p[..i + 1] {
      ChosenMembers(p[..i + 1], s, x);
    }
  }

  /** A visit of the path's start goes down the path: what comes first in a list is being visited and returns at
      once. */
  lemma {:induction false} Dives(deps: Graph, deps': Graph, p: seq<Package>, rest: seq<Package>, i: nat)
    requires Closed(deps) && Closed(deps') && Relisted(deps, deps') && Path(deps, p) && Distinct(p) && i < |p|
    requires forall f :: f in deps ==> deps'[f] == Chosen(p + rest, deps[f])
    ensures Visited(deps', p[|p| - 1], p[..|p| - 1], []) <= Visited(deps', p[i], p[..i], [])
    decreases |p| - i
  {
    if i < |p| - 1 {
      hide *;
      Dives(deps, deps', p, rest, i + 1);
      DiveStep(deps, deps', p, rest, i);
    }
  }

  lemma DiveStep(deps: Graph, deps': Graph, p: seq<Package>, rest: seq<Package>, i: nat)
    requires Closed(deps) && Closed(deps') && Relisted(deps, deps') && Path(deps, p) && Distinct(p) && i < |p| - 1
    requires forall f :: f in deps ==> deps'[f] == Chosen(p + rest, deps[f])
    ensures p[i] in deps' && p[i + 1] in deps'
    ensures Visited(deps', p[i + 1], p[..i + 1], []) <= Visited(deps', p[i], p[..i], [])
  {
    hide Visited, VisitedAll, Chosen, Closed;
    var pre, post := LeadsOn(deps, p, rest, i);
    assert p[..i + 1] == p[..i] + [p[i]];
    NotBefore(p, i);
    assert p[i] in deps && p[i] in deps';
    hide Path, Distinct, Relisted;
    OneDive(deps', p[i], pre, p[i + 1], post, p[..i]);
  }

  lemma NotBefore(p: seq<Package>, i: nat)
    requires Distinct(p) && i < |p|
    ensures p[i] !in p[..i]
  {
  }

  lemma OneDive(deps: Graph, x: Package, pre: seq<Package>, next: Package, post: seq<Package>, stack: seq<Package>)
    requires Closed(deps) && x in deps && x !in stack && deps[x] == pre + [next] + post
    requires forall y :: y in pre ==> y in stack + [x]
    ensures next in deps && Visited(deps, next, stack + [x], []) <= Visited(deps, x, stack, [])
  {
    var gs, below := deps[x], stack + [x];
    assert next == gs[|pre|];
    forall y | y in pre ensures y in deps {
      assert y in gs;
    }
    VisitUnfolds(deps, x, stack, []);
    hide Visited, VisitedAll, Closed;
    assert gs[..|pre| + 1] == pre + [next];
    PartExtends(deps, gs, |pre| + 1, below, []);
    OneMore(deps, pre, next, below);
  }

  lemma OneMore(deps: Graph, pre: seq<Package>, next: Package, stack: seq<Package>)
    requires Closed(deps) && next in deps && forall g :: g in pre ==> g in deps && g in stack
    ensures VisitedAll(deps, pre + [next], stack, []) == Visited(deps, next, stack, [])
  {
    assert (pre + [next])[..|pre|] == pre;
    NothingNew(deps, pre, stack, []);
  }

  lemma {:induction false} Listing(s: set<Package>) returns (r: seq<Package>)
    ensures Distinct(r) && forall x :: x in r <==> x in s
    decreases |s|
  {
    if s == {} {
      r := [];
    } else {
      var x :| x in s;
      r := Listing(s - {x});
      r := r + [x];
    }
  }

  lemma ListingFrom(deps: Graph, p: seq<Package>) returns (rest: seq<Package>)
    requires Distinct(p) && forall x :: x in p ==> x in deps
    ensures Lists(deps, p + rest)
  {
    rest := Listing(deps.Keys - set x | x in p);
    DistinctJoin(p, rest);
  }

  /** Where `g` cannot be reached without what is on the way to `f`, some order of the packages emits `f` first: the
      way there, and then the rest. */
  lemma NotNeededNotBefore(deps: Graph, p: seq<Package>, f: Package, g: Package) returns (pkgs: seq<Package>)
    requires Closed(deps) && SimplePathTo(deps, p, f) && !ReachesAvoiding(deps, f, g, p[..|p| - 1])
    ensures Lists(deps, pkgs) && !ComesBefore(deps, pkgs, g, f)
  {
    var rest := ListingFrom(deps, p);
    pkgs := p + rest;
    SortedIsRelisted(deps, pkgs);
    var deps' := Sorted(deps, pkgs);
    var stack := p[..|p| - 1];
    Dives(deps, deps', p, rest, 0);
    assert p[..0] == [] && pkgs[0] == p[0];
    RelistedPath(deps, deps', p);
    assert deps'.Keys == deps.Keys;
    hide Sorted, ReachesAvoiding, Visited, VisitedAll, Path;
    RelistedReaches(deps, deps', f, g, stack);
    LastOfDive(deps', p, f, g);
    hide Relisted, SimplePathTo;
    AllExtend(deps', pkgs, [], []);
    PackagesInOrder(deps', pkgs);
    PrefixWithout(Visited(deps', f, stack, []), VisitedAll(deps', pkgs, [], []), g, f);
  }

  lemma LastOfDive(deps: Graph, p: seq<Package>, f: Package, g: Package)
    requires Closed(deps) && SimplePathTo(deps, p, f) && !ReachesAvoiding(deps, f, g, p[..|p| - 1])
    ensures var v := Visited(deps, f, p[..|p| - 1], []); f in v && g !in v
  {
    var stack := p[..|p| - 1];
    hide ReachesAvoiding, Visited, VisitedAll;
    forall j | 0 <= j < |stack| ensures stack[j] in deps && stack[j] != f { }
    VisitedExactly(deps, f, stack, []);
    AvoidingSelf(deps, f, stack);
  }

  lemma PrefixWithout(v: seq<Package>, r: seq<Package>, g: Package, f: Package)
    requires v <= r && Distinct(r) && f in v && g !in v
    ensures !Before(r, g, f)
  {
    var k :| 0 <= k < |v| && v[k] == f;
    assert r[k] == f;
    forall i, j | 0 <= i < j < |r| && r[j] == f ensures r[i] != g {
      assert i < |v| && r[i] == v[i];
    }
  }

  /** The exact promise, on every graph: `g` comes before `f` whatever the order of the packages if and only if,
      however a visit may come to `f`, it can still go from there to `g`. */
  lemma BeforeExactly(deps: Graph, f: Package, g: Package)
    requires Closed(deps) && f in deps && f != g
    ensures AlwaysBefore(deps, g, f) <==> NeedsAnyway(deps, f, g)
  {
    hide ReachesAvoiding, Before, VisitedAll, Path, Relisted, Sorted;
    if NeedsAnyway(deps, f, g) {
      forall pkgs | Lists(deps, pkgs) ensures ComesBefore(deps, pkgs, g, f) {
        SortedIsRelisted(deps, pkgs);
        UnderAnyLists(deps, Sorted(deps, pkgs), pkgs, f, g);
      }
    } else {
      var p :| SimplePathTo(deps, p, f) && !ReachesAvoiding(deps, f, g, p[..|p| - 1]);
      var pkgs := NotNeededNotBefore(deps, p, f, g);
    }
  }

  /** What is needed anyway comes first even where every dependency list has an order of its own. */
  lemma UnderAnyLists(deps: Graph, deps': Graph, pkgs: seq<Package>, f: Package, g: Package)
    requires Closed(deps) && f in deps && f != g && NeedsAnyway(deps, f, g)
    requires Relisted(deps, deps') && Closed(deps') && Lists(deps, pkgs)
    ensures (forall y :: y in pkgs ==> y in deps') && Before(VisitedAll(deps', pkgs, [], []), g, f)
  {
    hide NeedsAnyway, ReachesAvoiding, Before, VisitedAll;
    RelistedNeeds(deps, deps', f, g);
    NeededIsBefore(deps', pkgs, f, g);
  }
}
