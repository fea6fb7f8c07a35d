/**
 `order_sources` of `scripts/vendor_opentitan_ip.py`: the depth-first visit that puts every package after the
 packages it refers to, on every dependency graph, cyclic or not.
 */
module PackageOrder {

  import opened Basics

  type Package = string

  /** For each package the packages its text refers to, in the order they are visited. */
  type Graph = map<Package, seq<Package>>

  predicate Closed(deps: Graph) {
    forall f, g :: f in deps && g in deps[f] ==> g in deps
  }

  predicate Path(deps: Graph, p: seq<Package>) {
    && p != []
    && (forall i :: 0 <= i < |p| ==> p[i] in deps)
    && (forall i :: 0 <= i < |p| - 1 ==> p[i + 1] in deps[p[i]])
  }

  /** `f` is `g` or depends on it transitively. */
  ghost predicate Reaches(deps: Graph, f: Package, g: Package) {
    exists p :: Path(deps, p) && p[0] == f && p[|p| - 1] == g
  }

  lemma ReachesSelf(deps: Graph, f: Package)
    requires f in deps
    ensures Reaches(deps, f, f)
  {
    assert Path(deps, [f]) && [f][0] == f && [f][|[f]| - 1] == f;
  }

  lemma ReachesFurther(deps: Graph, f: Package, g: Package, h: Package)
    requires Reaches(deps, f, g) && g in deps && h in deps && h in deps[g]
    ensures Reaches(deps, f, h)
  {
    var p :| Path(deps, p) && p[0] == f && p[|p| - 1] == g;
    var q := p + [h];
    assert forall i :: 0 <= i < |p| ==> q[i] == p[i];
    assert Path(deps, q) && q[0] == f && q[|q| - 1] == h;
  }

  predicate Before(order: seq<Package>, g: Package, f: Package) {
    exists i, j :: 0 <= i < j < |order| && order[i] == g && order[j] == f
  }

  /** Each emitted package comes after each of its dependencies that does not lead back to it. */
  ghost predicate Ordered(deps: Graph, order: seq<Package>) {
    forall f, g :: f in order && f in deps && g in deps[f] && !Reaches(deps, g, f) ==> Before(order, g, f)
  }

  lemma BeforeKept(order: seq<Package>, f: Package, a: Package, b: Package)
    requires Before(order, a, b)
    ensures Before(order + [f], a, b)
  {
    var i, j :| 0 <= i < j < |order| && order[i] == a && order[j] == b;
    assert (order + [f])[i] == a && (order + [f])[j] == b;
  }

  lemma OrderedSnoc(deps: Graph, order: seq<Package>, f: Package)
    requires Ordered(deps, order) && f in deps
    requires forall g :: g in deps[f] && !Reaches(deps, g, f) ==> g in order
    ensures Ordered(deps, order + [f])
  {
    var order' := order + [f];
    forall a, b | a in order' && a in deps && b in deps[a] && !Reaches(deps, b, a) ensures Before(order', b, a) {
      if a in order {
        BeforeKept(order, f, b, a);
      } else {
        var i :| 0 <= i < |order| && order[i] == b;
        assert order'[i] == b && order'[|order|] == f;
      }
    }
  }

  // ---- the visit as a function ------------------------------------------------------------------------------------

  /** The order after visiting `f` below the visits in `stack`, from the order so far. */
  function Visited(deps: Graph, f: Package, stack: seq<Package>, order: seq<Package>): seq<Package>
    requires Closed(deps) && f in deps
    decreases |deps.Keys - (set s | s in stack)|, 0
  {
    if f in order || f in stack then order else
    StackGrows(deps, stack, f);
    VisitedAll(deps, deps[f], stack + [f], order) + [f]
  }

  function VisitedAll(deps: Graph, gs: seq<Package>, stack: seq<Package>, order: seq<Package>): seq<Package>
    requires Closed(deps) && (forall g :: g in gs ==> g in deps)
    decreases |deps.Keys - (set s | s in stack)|, |gs| + 1
  {
    if gs == [] then order
    else Visited(deps, gs[|gs| - 1], stack, VisitedAll(deps, gs[..|gs| - 1], stack, order))
  }

  lemma StackGrows(deps: Graph, stack: seq<Package>, f: Package)
    requires f in deps && f !in stack
    ensures |deps.Keys - (set s | s in stack + [f])| < |deps.Keys - (set s | s in stack)|
  {
    var a, b := deps.Keys - (set s | s in stack), deps.Keys - (set s | s in stack + [f]);
    assert f in a && f !in b && f in stack + [f];
    assert b <= a - {f};
    SubsetSize(b, a - {f});
  }

  // ---- what every visit keeps -------------------------------------------------------------------------------------

  ghost predicate Good(deps: Graph, order: seq<Package>) {
    && (forall f :: f in order ==> f in deps)
    && Distinct(order)
    && Ordered(deps, order)
  }

  predicate Unseen(deps: Graph, stack: seq<Package>, order: seq<Package>) {
    forall s :: s in stack ==> s in deps && s !in order
  }

  /** A visit only appends, emits its package unless its own visit is under way, and never emits a package whose
      visit is; `stack` is a chain of dependencies down to `f`. */
  lemma {:induction false} VisitKeeps(deps: Graph, f: Package, stack: seq<Package>, order: seq<Package>)
    requires Closed(deps) && f in deps && Good(deps, order) && Unseen(deps, stack, order)
    requires forall s :: s in stack ==> Reaches(deps, s, f)
    ensures var r := Visited(deps, f, stack, order);
            Good(deps, r) && Unseen(deps, stack, r) && order <= r && (f in r || f in stack)
    decreases |deps.Keys - (set s | s in stack)|, 0
  {
    if f !in order && f !in stack {
      var stack' := stack + [f];
      StackGrows(deps, stack, f);
      ReachesSelf(deps, f);
      AllKeep(deps, f, deps[f], stack', order);
      var mid := VisitedAll(deps, deps[f], stack', order);
      assert f in stack';
      OrderedSnoc(deps, mid, f);
    }
  }

  lemma {:induction false} AllKeep(deps: Graph, f: Package, gs: seq<Package>, stack: seq<Package>, order: seq<Package>)
    requires Closed(deps) && f in deps && gs <= deps[f] && Good(deps, order) && Unseen(deps, stack, order)
    requires forall s :: s in stack ==> Reaches(deps, s, f)
    ensures var r := VisitedAll(deps, gs, stack, order);
            Good(deps, r) && Unseen(deps, stack, r) && order <= r && (forall g :: g in gs ==> g in r || g in stack)
    decreases |deps.Keys - (set s | s in stack)|, |gs| + 1
  {
    if gs != [] {
      var g, init := gs[|gs| - 1], gs[..|gs| - 1];
      AllKeep(deps, f, init, stack, order);
      hide Good, Unseen, Visited;
      assert g in deps[f] by { assert g == deps[f][|gs| - 1]; }
      forall s | s in stack ensures Reaches(deps, s, g) {
        ReachesFurther(deps, s, f, g);
      }
      VisitKeeps(deps, g, stack, VisitedAll(deps, init, stack, order));
    }
  }

  // ---- the program ------------------------------------------------------------------------------------------------

  class Visitor {
    const deps: Graph
    var ordered: seq<Package>
    var seen: set<Package>

    constructor (deps: Graph)
      ensures this.deps == deps && ordered == [] && seen == {}
    {
      this.deps := deps;
      ordered := [];
      seen := {};
    }

    ghost predicate Valid()
      reads this
    {
      Closed(deps) && seen == (set x | x in ordered)
    }

    method Visit(f: Package, stack: seq<Package>)
      requires Valid() && f in deps
      modifies this
      ensures Valid()
      ensures ordered == Visited(deps, f, stack, old(ordered))
      decreases |deps.Keys - (set s | s in stack)|
    {
      if f in seen || f in stack {
        return;
      }
      StackGrows(deps, stack, f);
      for k := 0 to |deps[f]|
        invariant Valid()
        invariant ordered == VisitedAll(deps, deps[f][..k], stack + [f], old(ordered))
      {
        Visit(deps[f][k], stack + [f]);
        assert deps[f][..k + 1][..k] == deps[f][..k];
      }
      assert deps[f][..|deps[f]|] == deps[f];
      seen := seen + {f};
      ordered := ordered + [f];
    }
  }

  /** The package part of `order_sources`: each package exactly once, after each dependency that does not lead
      back to it. */
  method OrderPackages(deps: Graph, pkgs: seq<Package>) returns (ordered: seq<Package>)
    requires Closed(deps) && (forall f :: f in pkgs <==> f in deps)
    ensures ordered == VisitedAll(deps, pkgs, [], [])
    ensures Distinct(ordered) && (forall f :: f in ordered <==> f in deps)
    ensures forall f, g :: f in deps && g in deps[f] && !Reaches(deps, g, f) ==> Before(ordered, g, f)
  {
    var v := new Visitor(deps);
    for i := 0 to |pkgs|
      invariant v.Valid() && v.deps == deps
      invariant v.ordered == VisitedAll(deps, pkgs[..i], [], [])
    {
      v.Visit(pkgs[i], []);
      assert pkgs[..i + 1][..i] == pkgs[..i];
    }
    assert pkgs[..|pkgs|] == pkgs;
    ordered := v.ordered;
    PackagesInOrder(deps, pkgs);
  }

  lemma NothingOrdered(deps: Graph)
    ensures Ordered(deps, [])
  {
  }

  /** From the empty order, with no visit under way. */
  lemma {:induction false} PackagesInOrder(deps: Graph, pkgs: seq<Package>)
    requires Closed(deps) && (forall f :: f in pkgs ==> f in deps)
    ensures var r := VisitedAll(deps, pkgs, [], []);
            Good(deps, r) && (forall f :: f in pkgs ==> f in r)
  {
    hide Ordered, Visited;
    assert Ordered(deps, []) by { NothingOrdered(deps); }
    if pkgs != [] {
      var init := pkgs[..|pkgs| - 1];
      assert pkgs == init + [pkgs[|pkgs| - 1]];
      PackagesInOrder(deps, init);
      VisitKeeps(deps, pkgs[|pkgs| - 1], [], VisitedAll(deps, init, [], []));
    }
  }

  // ---- what the order gives a compiler ---------------------------------------------------------------------------

  lemma BeforeTransitive(order: seq<Package>, a: Package, b: Package, c: Package)
    requires Distinct(order) && Before(order, a, b) && Before(order, b, c)
    ensures Before(order, a, c)
  {
    var i, j :| 0 <= i < j < |order| && order[i] == a && order[j] == b;
    var k, l :| 0 <= k < l < |order| && order[k] == b && order[l] == c;
    assert j == k;
  }

  lemma BeforeIrreflexive(order: seq<Package>, a: Package)
    requires Distinct(order)
    ensures !Before(order, a, a)
  {
  }

  /** A chain of dependencies, none of which leads back, is emitted in full before its start. */
  lemma {:induction false} ChainInOrder(deps: Graph, order: seq<Package>, p: seq<Package>)
    requires Ordered(deps, order) && Distinct(order) && Path(deps, p) && |p| > 1
    requires forall f :: f in deps ==> f in order
    requires forall i :: 0 <= i < |p| - 1 ==> !Reaches(deps, p[i + 1], p[i])
    ensures Before(order, p[|p| - 1], p[0])
  {
    var q := p[..|p| - 1];
    var last, prev := p[|p| - 1], p[|p| - 2];
    assert Before(order, last, prev);
    if |q| > 1 {
      ChainInOrder(deps, order, q);
      BeforeTransitive(order, last, prev, p[0]);
    }
  }

  ghost predicate Acyclic(deps: Graph) {
    forall f, g :: f in deps && g in deps[f] ==> !Reaches(deps, g, f)
  }

  /** On an acyclic graph every transitive dependency comes first: a full topological order. */
  lemma AcyclicIsTopological(deps: Graph, order: seq<Package>, f: Package, g: Package)
    requires Ordered(deps, order) && Distinct(order) && Acyclic(deps)
    requires forall f :: f in deps ==> f in order
    requires Reaches(deps, f, g) && f != g
    ensures Before(order, g, f) && !Before(order, f, g)
  {
    var p :| Path(deps, p) && p[0] == f && p[|p| - 1] == g;
    ChainInOrder(deps, order, p);
    if Before(order, f, g) {
      BeforeTransitive(order, f, g, f);
      BeforeIrreflexive(order, f);
      assert false;
    }
  }

  /** On a cyclic graph a transitive dependency that leads nowhere back can be emitted later: here `a` and `b` refer to
      each other and `a` to `c`, so `b` needs `c` through `a`, and yet `b` is emitted before `c`. */
  lemma TransitiveOrderFailsOnCycles()
    ensures var deps := map["a" := ["b", "c"], "b" := ["a"], "c" := []];
            && Closed(deps) && Reaches(deps, "b", "c") && !Reaches(deps, "c", "b")
            && VisitedAll(deps, ["a", "b", "c"], [], []) == ["b", "c", "a"]
  {
    var deps: Graph := map["a" := ["b", "c"], "b" := ["a"], "c" := []];
    ReachesSelf(deps, "b");
    assert "a" == deps["b"][0] && "c" == deps["a"][1];
    ReachesFurther(deps, "b", "b", "a");
    ReachesFurther(deps, "b", "a", "c");
    forall p | Path(deps, p) && p[0] == "c" ensures p[|p| - 1] != "b" {
      if |p| > 1 {
        PathGoesOn(deps, p, 0);
      }
      assert "b"[0] != "c"[0];
    }
    CycleRun(deps);
  }

  lemma PathGoesOn(deps: Graph, p: seq<Package>, i: nat)
    requires Path(deps, p) && i < |p| - 1
    ensures deps[p[i]] != []
  {
    assert p[i + 1] in deps[p[i]];
  }

  lemma CycleRun(deps: Graph)
    requires deps == map["a" := ["b", "c"], "b" := ["a"], "c" := []]
    ensures Closed(deps) && VisitedAll(deps, ["a", "b", "c"], [], []) == ["b", "c", "a"]
  {
    InnerRun(deps);
    OneVisit(deps, "a", [], []);
    assert [] + ["a"] == ["a"];
    hide Visited, VisitedAll, Closed;
    ListVisit(deps, ["a", "b", "c"], [], []);
    ListVisit(deps, ["a", "b"], [], []);
    ListVisit(deps, ["a"], [], []);
    ListVisit(deps, [], [], []);
    assert ["a", "b", "c"][..2] == ["a", "b"] && ["a", "b"][..1] == ["a"] && ["a"][..0] == [];
    OneVisit(deps, "b", [], ["b", "c", "a"]);
    OneVisit(deps, "c", [], ["b", "c", "a"]);
  }

  /** The visits below the one of `a`. */
  lemma InnerRun(deps: Graph)
    requires deps == map["a" := ["b", "c"], "b" := ["a"], "c" := []]
    ensures Closed(deps) && VisitedAll(deps, ["b", "c"], ["a"], []) == ["b", "c"]
  {
    assert Closed(deps);
    hide Visited, VisitedAll, Closed;
    ListVisit(deps, ["b", "c"], ["a"], []);
    ListVisit(deps, ["b"], ["a"], []);
    ListVisit(deps, [], ["a"], []);
    assert ["b", "c"][..1] == ["b"] && ["b"][..0] == [];
    OneVisit(deps, "b", ["a"], []);
    assert ["a"] + ["b"] == ["a", "b"];
    ListVisit(deps, ["a"], ["a", "b"], []);
    ListVisit(deps, [], ["a", "b"], []);
    assert ["a"][..0] == [];
    OneVisit(deps, "a", ["a", "b"], []);
    OneVisit(deps, "c", ["a"], ["b"]);
    ListVisit(deps, [], ["a"] + ["c"], ["b"]);
  }

  lemma OneVisit(deps: Graph, f: Package, stack: seq<Package>, order: seq<Package>)
    requires Closed(deps) && f in deps
    ensures Visited(deps, f, stack, order) ==
            if f in order || f in stack then order else VisitedAll(deps, deps[f], stack + [f], order) + [f]
  {
  }

  lemma ListVisit(deps: Graph, gs: seq<Package>, stack: seq<Package>, order: seq<Package>)
    requires Closed(deps) && (forall g :: g in gs ==> g in deps)
    ensures VisitedAll(deps, gs, stack, order) ==
            if gs == [] then order
            else Visited(deps, gs[|gs| - 1], stack, VisitedAll(deps, gs[..|gs| - 1], stack, order))
  {
  }
}
