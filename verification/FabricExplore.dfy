/**
 `explore` of `examples/verify/v10_mem_fabric_client_mux/generate.py`: breadth-first exploration of the issue path, and
 the names and arrows it emits.
 */
module FabricExplore {
  import opened Basics
  import opened Fabric
  import opened FabricVerdicts

  /** A state's name; all states of one outcome share it. */
  datatype Name = Duplicate | Skipped | Done | Plain(loc: Loc, ptr: nat, reg: Option<nat>, dlv: nat)

  datatype Arrow = Arrow(from: Name, labels: seq<Label>, to: Name)

  function NameOf(n: nat, s: State): Name {
    if s.err == Some(Dup) then Duplicate
    else if s.err == Some(Skip) then Skipped
    else if s.dlv > n then Done
    else Plain(s.loc, s.ptr, s.reg, s.dlv)
  }

  const OUTCOMES := [Duplicate, Skipped, Done]

  function ArrowOf(n: nat, s: State, e: Edge): Arrow { Arrow(NameOf(n, s), e.labels, NameOf(n, e.next)) }

  function ArrowsOf(n: nat, s: State, es: seq<Edge>): (r: seq<Arrow>)
    ensures |r| == |es| && forall i :: 0 <= i < |es| ==> r[i] == ArrowOf(n, s, es[i])
  {
    seq(|es|, i requires 0 <= i < |es| => ArrowOf(n, s, es[i]))
  }

  ghost predicate Reachable(n: nat, v: Variant, backfill: bool, s: State) {
    exists run :: IsRun(n, v, backfill, INIT, run) && End(INIT, run) == s
  }

  // ---- the state space is finite ---------------------------------------------------------------------------

  predicate InRange(n: nat, s: State) {
    s.ptr <= n + 1 && s.dlv <= n + 1 && (s.reg.Some? ==> s.reg.value <= n + 1)
  }

  function Upto(n: nat): (r: set<nat>)
    ensures forall x: int :: x in r <==> 0 <= x <= n
  {
    if n == 0 then {0} else Upto(n - 1) + {n}
  }

  const LOCS := {Idle, Busy}
  const FAULTS := {None, Some(Dup), Some(Skip)}

  function Registers(n: nat): set<Option<nat>> {
    {None} + set x | x in Upto(n + 1) :: Some(x)
  }

  function Universe(n: nat): set<State> {
    set loc, ptr, reg, dlv, err |
      loc in LOCS && ptr in Upto(n + 1) && reg in Registers(n) && dlv in Upto(n + 1) && err in FAULTS
      :: State(loc, ptr, reg, dlv, err)
  }

  lemma FieldsKnown(n: nat, s: State)
    requires InRange(n, s)
    ensures s.loc in LOCS && s.ptr in Upto(n + 1) && s.reg in Registers(n) && s.dlv in Upto(n + 1) && s.err in FAULTS
  {
    KnownFaults(s);
    match s.loc
    case Idle =>
    case Busy =>
  }

  lemma KnownFaults(s: State)
    ensures s.err == None || s.err == Some(Dup) || s.err == Some(Skip)
  {
    match s.err
    case None =>
    case Some(Dup) =>
    case Some(Skip) =>
  }

  lemma InUniverse(n: nat, s: State)
    requires InRange(n, s)
    ensures s in Universe(n)
  {
    FieldsKnown(n, s);
    hide Upto, Registers, LOCS, FAULTS;
    assert s == State(s.loc, s.ptr, s.reg, s.dlv, s.err);
  }

  lemma StaysInRange(n: nat, v: Variant, backfill: bool, s: State, e: Edge)
    requires InRange(n, s) && e in Succ(n, v, backfill, s)
    ensures InRange(n, e.next)
  {
    if s.err.None? && s.dlv <= n {
      if v == V1 {
        WireInRange(n, backfill, s, e);
      } else {
        hide Succ, Registered;
        var grant, acc := EdgeOf(n, v, backfill, s, e);
        RegisteredInRange(n, v, s, grant, acc, e);
      }
    }
  }

  lemma WireInRange(n: nat, backfill: bool, s: State, e: Edge)
    requires InRange(n, s) && s.err.None? && s.dlv <= n && e in Succ(n, V1, backfill, s)
    ensures InRange(n, e.next)
  {
    assert e in V1Edges(s, false) || e in V1Edges(s, true);
    hide Succ, GrantEdges, Registered;
  }

  lemma RegisteredInRange(n: nat, v: Variant, s: State, grant: bool, acc: Retire, e: Edge)
    requires InRange(n, s) && s.err.None? && s.dlv <= n && e in Registered(n, v, s, grant, acc)
    ensures InRange(n, e.next)
  {
  }

  // ---- exploration -----------------------------------------------------------------------------------------

  /** What the search has found: `order` lists `seen` without repetition, all of it reachable. */
  ghost predicate Found(n: nat, v: Variant, backfill: bool, seen: set<State>, order: seq<State>) {
    && Distinct(order) && |seen| == |order|
    && (forall s :: s in seen <==> s in order)
    && (forall s :: s in seen ==> InRange(n, s) && Reachable(n, v, backfill, s))
  }

  lemma StartReachable(n: nat, v: Variant, backfill: bool)
    ensures Reachable(n, v, backfill, INIT)
  {
    assert IsRun(n, v, backfill, INIT, []) && End(INIT, []) == INIT;
  }

  lemma ReachableStep(n: nat, v: Variant, backfill: bool, s: State, e: Edge)
    requires Reachable(n, v, backfill, s) && e in Succ(n, v, backfill, s)
    ensures Reachable(n, v, backfill, e.next)
  {
    hide Succ;
    var run :| IsRun(n, v, backfill, INIT, run) && End(INIT, run) == s;
    RunAppend(n, v, backfill, INIT, run, [e]);
  }

  // ---- breadth first -------------------------------------------------------------------------------------------

  /** Some run of `d` edges ends in `s`. */
  ghost predicate After(n: nat, v: Variant, backfill: bool, s: State, d: nat) {
    exists run :: IsRun(n, v, backfill, INIT, run) && |run| == d && End(INIT, run) == s
  }

  /** The states found, by distance: `dist` says after how many edges each is reached, and never falls. */
  ghost predicate Levels(n: nat, v: Variant, backfill: bool, order: seq<State>, dist: seq<nat>) {
    && |dist| == |order| > 0 && order[0] == INIT && dist[0] == 0
    && (forall i, j :: 0 <= i < j < |dist| ==> dist[i] <= dist[j])
    && forall i :: 0 <= i < |order| ==> After(n, v, backfill, order[i], dist[i])
  }

  predicate Near(order: seq<State>, dist: seq<nat>, s: State, d: nat) {
    exists i :: 0 <= i < |order| && i < |dist| && order[i] == s && dist[i] <= d
  }

  /** What the first `k` states lead to is at most one edge farther than they are. */
  ghost predicate Spread(n: nat, v: Variant, backfill: bool, order: seq<State>, dist: seq<nat>, k: nat)
    requires k <= |order| == |dist|
  {
    forall j, e :: 0 <= j < k && e in Succ(n, v, backfill, order[j]) ==> Near(order, dist, e.next, dist[j] + 1)
  }

  lemma AfterStep(n: nat, v: Variant, backfill: bool, s: State, e: Edge, d: nat)
    requires After(n, v, backfill, s, d) && e in Succ(n, v, backfill, s)
    ensures After(n, v, backfill, e.next, d + 1)
  {
    hide Succ;
    var run :| IsRun(n, v, backfill, INIT, run) && |run| == d && End(INIT, run) == s;
    RunAppend(n, v, backfill, INIT, run, [e]);
  }

  lemma LevelsStart(n: nat, v: Variant, backfill: bool)
    ensures Levels(n, v, backfill, [INIT], [0])
  {
    assert IsRun(n, v, backfill, INIT, []) && End(INIT, []) == INIT;
  }

  lemma LevelsGrow(n: nat, v: Variant, backfill: bool, order: seq<State>, dist: seq<nat>, s: State, d: nat)
    requires Levels(n, v, backfill, order, dist) && dist[|dist| - 1] <= d && After(n, v, backfill, s, d)
    ensures Levels(n, v, backfill, order + [s], dist + [d])
  {
    hide After;
  }

  lemma NearKept(order: seq<State>, dist: seq<nat>, s: State, d: nat, order': seq<State>, dist': seq<nat>)
    requires Near(order, dist, s, d) && order <= order' && dist <= dist'
    ensures Near(order', dist', s, d)
  {
    var i :| 0 <= i < |order| && i < |dist| && order[i] == s && dist[i] <= d;
    assert order'[i] == s && dist'[i] <= d;
  }

  lemma SpreadStep(n: nat, v: Variant, backfill: bool, order0: seq<State>, dist0: seq<nat>, order: seq<State>,
                   dist: seq<nat>, k: nat)
    requires k < |order0| == |dist0| && |order| == |dist| && order0 <= order && dist0 <= dist
    requires Spread(n, v, backfill, order0, dist0, k)
    requires forall e :: e in Succ(n, v, backfill, order0[k]) ==> Near(order, dist, e.next, dist0[k] + 1)
    ensures Spread(n, v, backfill, order, dist, k + 1)
  {
    hide Succ, Near;
    forall j, e | 0 <= j < k + 1 && e in Succ(n, v, backfill, order[j]) ensures Near(order, dist, e.next, dist[j] + 1) {
      if j < k {
        assert e in Succ(n, v, backfill, order0[j]);
        NearKept(order0, dist0, e.next, dist0[j] + 1, order, dist);
      }
    }
  }

  /** Every run has been matched: the state it ends in was found no later than its length. */
  lemma {:induction false} RunsAreNear(n: nat, v: Variant, backfill: bool, order: seq<State>, dist: seq<nat>,
                                       run: seq<Edge>)
    requires Levels(n, v, backfill, order, dist) && Spread(n, v, backfill, order, dist, |order|)
    requires IsRun(n, v, backfill, INIT, run)
    ensures Near(order, dist, End(INIT, run), |run|)
  {
    hide Succ, After, Spread, Near, IsRun;
    assert |dist| == |order|;
    if run == [] {
      assert Near(order, dist, INIT, 0) by { StartIsNear(n, v, backfill, order, dist); }
    } else {
      hide Levels;
      var k := |run| - 1;
      RunPrefix(n, v, backfill, INIT, run, k);
      RunsAreNear(n, v, backfill, order, dist, run[..k]);
      LastOf(n, v, backfill, run);
      NearStep(n, v, backfill, order, dist, At(INIT, run, k), run[k], k);
    }
  }

  lemma LastOf(n: nat, v: Variant, backfill: bool, run: seq<Edge>)
    requires IsRun(n, v, backfill, INIT, run) && run != []
    ensures run[|run| - 1] in Succ(n, v, backfill, At(INIT, run, |run| - 1))
  {
  }

  lemma StartIsNear(n: nat, v: Variant, backfill: bool, order: seq<State>, dist: seq<nat>)
    requires Levels(n, v, backfill, order, dist)
    ensures Near(order, dist, INIT, 0)
  {
    assert order[0] == INIT && dist[0] <= 0;
  }

  lemma NearStep(n: nat, v: Variant, backfill: bool, order: seq<State>, dist: seq<nat>, s: State, e: Edge, d: nat)
    requires |order| == |dist| && Spread(n, v, backfill, order, dist, |order|)
    requires Near(order, dist, s, d) && e in Succ(n, v, backfill, s)
    ensures Near(order, dist, e.next, d + 1)
  {
    hide Succ;
    var i :| 0 <= i < |order| && i < |dist| && order[i] == s && dist[i] <= d;
    assert Near(order, dist, e.next, dist[i] + 1);
  }

  /** Breadth first: the states are listed by their distance, the least number of edges of a run to them. */
  ghost predicate ByDistance(n: nat, v: Variant, backfill: bool, order: seq<State>, dist: seq<nat>) {
    && Levels(n, v, backfill, order, dist)
    && forall i, d: nat :: 0 <= i < |order| && After(n, v, backfill, order[i], d) ==> d >= dist[i]
  }

  lemma DistancesAreLeast(n: nat, v: Variant, backfill: bool, order: seq<State>, dist: seq<nat>)
    requires Levels(n, v, backfill, order, dist) && Spread(n, v, backfill, order, dist, |order|) && Distinct(order)
    ensures ByDistance(n, v, backfill, order, dist)
  {
    hide Spread;
    forall i, d: nat | 0 <= i < |order| && After(n, v, backfill, order[i], d) ensures d >= dist[i] {
      var run :| IsRun(n, v, backfill, INIT, run) && |run| == d && End(INIT, run) == order[i];
      RunsAreNear(n, v, backfill, order, dist, run);
      var j :| 0 <= j < |order| && j < |dist| && order[j] == order[i] && dist[j] <= d;
      assert j == i;
    }
  }

  // ---- the search --------------------------------------------------------------------------------------------

  /** The body of the search loop: record every edge of `s` and enqueue the states not seen before. */
  method Expand(n: nat, v: Variant, backfill: bool, s: State, seen0: set<State>, order0: seq<State>, edges0: seq<Arrow>)
    returns (seen: set<State>, order: seq<State>, edges: seq<Arrow>)
    requires Found(n, v, backfill, seen0, order0) && s in seen0
    ensures Found(n, v, backfill, seen, order) && order0 <= order && seen0 <= seen
    ensures forall e :: e in Succ(n, v, backfill, s) ==> e.next in seen
    ensures edges == edges0 + ArrowsOf(n, s, Succ(n, v, backfill, s))
    ensures forall i :: |order0| <= i < |order| ==> LeadsTo(n, v, backfill, s, order[i])
  {
    hide Succ, Found, LeadsTo;
    seen, order, edges := seen0, order0, edges0;
    var succ := Successors(n, v, backfill, s);
    for i := 0 to |succ|
      invariant Found(n, v, backfill, seen, order) && order0 <= order && seen0 <= seen
      invariant forall j :: 0 <= j < i ==> succ[j].next in seen
      invariant edges == edges0 + ArrowsOf(n, s, succ)[..i]
      invariant forall j :: |order0| <= j < |order| ==> LeadsTo(n, v, backfill, s, order[j])
    {
      var e := succ[i];
      edges := edges + [ArrowOf(n, s, e)];
      if e.next !in seen {
        FoundGrows(n, v, backfill, seen, order, s, e);
        seen := seen + {e.next};
        order := order + [e.next];
      }
    }
  }

  ghost predicate LeadsTo(n: nat, v: Variant, backfill: bool, s: State, t: State) {
    exists e :: e in Succ(n, v, backfill, s) && e.next == t
  }

  lemma FoundGrows(n: nat, v: Variant, backfill: bool, seen: set<State>, order: seq<State>, s: State, e: Edge)
    requires Found(n, v, backfill, seen, order) && s in seen && e in Succ(n, v, backfill, s) && e.next !in seen
    ensures Found(n, v, backfill, seen + {e.next}, order + [e.next]) && LeadsTo(n, v, backfill, s, e.next)
  {
    hide Succ, InRange, Reachable;
    StaysInRange(n, v, backfill, s, e);
    ReachableStep(n, v, backfill, s, e);
    FoundOneMore(n, v, backfill, seen, order, e.next);
  }

  lemma FoundOneMore(n: nat, v: Variant, backfill: bool, seen: set<State>, order: seq<State>, s: State)
    requires Found(n, v, backfill, seen, order) && s !in seen && InRange(n, s) && Reachable(n, v, backfill, s)
    ensures Found(n, v, backfill, seen + {s}, order + [s])
  {
    hide InRange, Reachable;
    forall t ensures t in seen + {s} <==> t in order + [s] {
    }
  }

  /** The states an expansion of the one at `k` finds are one edge farther. */
  lemma {:induction false} LevelsAfter(n: nat, v: Variant, backfill: bool, order0: seq<State>, dist0: seq<nat>,
                                       order: seq<State>, k: nat) returns (dist: seq<nat>)
    requires Levels(n, v, backfill, order0, dist0) && order0 <= order && k < |order0|
    requires dist0[|dist0| - 1] <= dist0[k] + 1
    requires forall i :: |order0| <= i < |order| ==> LeadsTo(n, v, backfill, order0[k], order[i])
    ensures Levels(n, v, backfill, order, dist) && dist0 <= dist && dist[|dist| - 1] <= dist0[k] + 1
    decreases |order|
  {
    hide After, LeadsTo;
    if order == order0 {
      dist := dist0;
    } else {
      var m := |order| - 1;
      var before := LevelsAfter(n, v, backfill, order0, dist0, order[..m], k);
      assert After(n, v, backfill, order[m], dist0[k] + 1) by {
        assert LeadsTo(n, v, backfill, order0[k], order[m]);
        LeadsAfter(n, v, backfill, order0[k], order[m], dist0[k]);
      }
      LevelsGrow(n, v, backfill, order[..m], before, order[m], dist0[k] + 1);
      dist := before + [dist0[k] + 1];
      assert order[..m] + [order[m]] == order;
    }
  }

  lemma LeadsAfter(n: nat, v: Variant, backfill: bool, s: State, t: State, d: nat)
    requires After(n, v, backfill, s, d) && LeadsTo(n, v, backfill, s, t)
    ensures After(n, v, backfill, t, d + 1)
  {
    hide Succ, After;
    var e :| e in Succ(n, v, backfill, s) && e.next == t;
    AfterStep(n, v, backfill, s, e, d);
  }

  lemma SeenIsNear(n: nat, v: Variant, backfill: bool, seen: set<State>, order: seq<State>, dist: seq<nat>, d: nat)
    requires Found(n, v, backfill, seen, order) && Levels(n, v, backfill, order, dist) && dist[|dist| - 1] <= d
    ensures forall s :: s in seen ==> Near(order, dist, s, d)
  {
    hide After, Reachable, InRange;
    forall s | s in seen ensures Near(order, dist, s, d) {
      var i :| 0 <= i < |order| && order[i] == s;
      assert dist[i] <= dist[|dist| - 1];
    }
  }

  /** Every state of a prefix has been expanded: its successors are found and its edges recorded. */
  ghost predicate Expanded(n: nat, v: Variant, backfill: bool, seen: set<State>, order: seq<State>, k: nat,
                           edges: seq<Arrow>)
    requires k <= |order|
  {
    forall j, e :: 0 <= j < k && e in Succ(n, v, backfill, order[j]) ==>
      e.next in seen && ArrowOf(n, order[j], e) in edges
  }

  /** Every recorded edge is an edge of a found state. */
  ghost predicate Justified(n: nat, v: Variant, backfill: bool, seen: set<State>, edges: seq<Arrow>) {
    forall a :: a in edges ==> exists s, e :: s in seen && e in Succ(n, v, backfill, s) && a == ArrowOf(n, s, e)
  }

  lemma ExpandedStep(n: nat, v: Variant, backfill: bool, seen0: set<State>, order0: seq<State>, edges0: seq<Arrow>,
                     seen: set<State>, order: seq<State>, edges: seq<Arrow>, k: nat)
    requires k < |order0| && order0 <= order && seen0 <= seen
    requires Expanded(n, v, backfill, seen0, order0, k, edges0)
    requires forall e :: e in Succ(n, v, backfill, order0[k]) ==> e.next in seen
    requires edges == edges0 + ArrowsOf(n, order0[k], Succ(n, v, backfill, order0[k]))
    ensures Expanded(n, v, backfill, seen, order, k + 1, edges)
  {
    hide Succ;
    forall j, e | 0 <= j < k + 1 && e in Succ(n, v, backfill, order[j])
      ensures e.next in seen && ArrowOf(n, order[j], e) in edges
    {
      if j == k {
        var es := Succ(n, v, backfill, order0[k]);
        var i :| 0 <= i < |es| && es[i] == e;
        assert edges[|edges0| + i] == ArrowOf(n, order[j], e);
      } else {
        assert order[j] == order0[j];
      }
    }
  }

  lemma JustifiedStep(n: nat, v: Variant, backfill: bool, seen0: set<State>, edges0: seq<Arrow>, s: State,
                      seen: set<State>, edges: seq<Arrow>)
    requires Justified(n, v, backfill, seen0, edges0) && seen0 <= seen && s in seen
    requires edges == edges0 + ArrowsOf(n, s, Succ(n, v, backfill, s))
    ensures Justified(n, v, backfill, seen, edges)
  {
    hide Succ;
    forall a | a in edges ensures exists s, e :: s in seen && e in Succ(n, v, backfill, s) && a == ArrowOf(n, s, e) {
      if a in edges0 {
        var s', e' :| s' in seen0 && e' in Succ(n, v, backfill, s') && a == ArrowOf(n, s', e');
      } else {
        var es := Succ(n, v, backfill, s);
        var i :| 0 <= i < |es| && ArrowsOf(n, s, es)[i] == a;
        assert es[i] in Succ(n, v, backfill, s) && a == ArrowOf(n, s, es[i]);
      }
    }
  }

  /** The edges of the states, state by state. */
  function ArrowsFrom(n: nat, v: Variant, backfill: bool, order: seq<State>): seq<Arrow> {
    if order == [] then []
    else
      var s := order[|order| - 1];
      ArrowsFrom(n, v, backfill, order[..|order| - 1]) + ArrowsOf(n, s, Succ(n, v, backfill, s))
  }

  /** The search terminates, finds exactly the reachable states and records exactly their edges. */
  method Search(n: nat, v: Variant, backfill: bool)
    returns (order: seq<State>, edges: seq<Arrow>, ghost dist: seq<nat>)
    ensures Distinct(order) && forall s :: s in order <==> Reachable(n, v, backfill, s)
    ensures forall s, e :: Reachable(n, v, backfill, s) && e in Succ(n, v, backfill, s) ==> ArrowOf(n, s, e) in edges
    ensures forall a :: a in edges ==>
              exists s, e :: Reachable(n, v, backfill, s) && e in Succ(n, v, backfill, s) && a == ArrowOf(n, s, e)
    ensures ByDistance(n, v, backfill, order, dist) && edges == ArrowsFrom(n, v, backfill, order)
  {
    hide Succ, Found, Expanded, Justified, ByDistance, Reachable, Levels, Spread, Near, LeadsTo, Universe;
    var seen := {INIT};
    order, edges, dist := [INIT], [], [0];
    SearchStarts(n, v, backfill);
    var q := [INIT];
    ghost var k := 0;
    while q != []
      invariant Found(n, v, backfill, seen, order) && INIT in seen
      invariant k <= |order| && q == order[k..]
      invariant Expanded(n, v, backfill, seen, order, k, edges) && Justified(n, v, backfill, seen, edges)
      invariant Levels(n, v, backfill, order, dist) && |dist| == |order| && Spread(n, v, backfill, order, dist, k)
      invariant k < |order| ==> dist[|dist| - 1] <= dist[k] + 1
      invariant edges == ArrowsFrom(n, v, backfill, order[..k])
      decreases |Universe(n)| - k
    {
      var s := q[0];
      q := q[1..];
      ghost var seen0, order0, edges0, dist0 := seen, order, edges, dist;
      FoundHas(n, v, backfill, seen, order, k);
      var before := |order|;
      seen, order, edges := Expand(n, v, backfill, s, seen, order, edges);
      dist := Leveled(n, v, backfill, seen, order0, dist0, order, k);
      SpreadStep(n, v, backfill, order0, dist0, order, dist, k);
      q := q + order[before..];
      ExpandedStep(n, v, backfill, seen0, order0, edges0, seen, order, edges, k);
      JustifiedStep(n, v, backfill, seen0, edges0, s, seen, edges);
      Bounded(n, v, backfill, seen, order);
      assert order[..k + 1][..k] == order0[..k] && order[..k + 1][k] == s;
      k := k + 1;
    }
    assert order[..k] == order;
    Complete(n, v, backfill, seen, order, edges);
    DistancesAreLeast(n, v, backfill, order, dist);
  }

  /** The distances after the state at `k` has been expanded. */
  lemma Leveled(n: nat, v: Variant, backfill: bool, seen: set<State>, order0: seq<State>, dist0: seq<nat>,
                order: seq<State>, k: nat) returns (dist: seq<nat>)
    requires Levels(n, v, backfill, order0, dist0) && order0 <= order && k < |order0|
    requires dist0[|dist0| - 1] <= dist0[k] + 1 && Found(n, v, backfill, seen, order)
    requires forall i :: |order0| <= i < |order| ==> LeadsTo(n, v, backfill, order0[k], order[i])
    requires forall e :: e in Succ(n, v, backfill, order0[k]) ==> e.next in seen
    ensures Levels(n, v, backfill, order, dist) && dist0 <= dist && |dist0| == |order0| && |dist| == |order|
    ensures k + 1 < |order| ==> dist[|dist| - 1] <= dist[k + 1] + 1
    ensures forall e :: e in Succ(n, v, backfill, order0[k]) ==> Near(order, dist, e.next, dist0[k] + 1)
  {
    hide Found, Near, LeadsTo, Succ, After;
    dist := LevelsAfter(n, v, backfill, order0, dist0, order, k);
    LevelsNext(n, v, backfill, order, dist, k);
    SeenIsNear(n, v, backfill, seen, order, dist, dist0[k] + 1);
  }

  lemma SearchStarts(n: nat, v: Variant, backfill: bool)
    ensures Found(n, v, backfill, {INIT}, [INIT]) && Expanded(n, v, backfill, {INIT}, [INIT], 0, [])
    ensures Justified(n, v, backfill, {INIT}, []) && Levels(n, v, backfill, [INIT], [0])
    ensures Spread(n, v, backfill, [INIT], [0], 0)
  {
    LevelsStart(n, v, backfill);
    InitFound(n, v, backfill);
    hide Succ, Reachable, InRange;
  }

  lemma FoundHas(n: nat, v: Variant, backfill: bool, seen: set<State>, order: seq<State>, k: nat)
    requires Found(n, v, backfill, seen, order) && k < |order|
    ensures order[k] in seen
  {
  }

  lemma LevelsNext(n: nat, v: Variant, backfill: bool, order: seq<State>, dist: seq<nat>, k: nat)
    requires Levels(n, v, backfill, order, dist) && k < |order|
    ensures |dist| == |order| && (k + 1 < |order| ==> dist[k] <= dist[k + 1])
  {
    hide After;
  }

  lemma InitFound(n: nat, v: Variant, backfill: bool)
    ensures Reachable(n, v, backfill, INIT) && InRange(n, INIT)
  {
    assert IsRun(n, v, backfill, INIT, []) && End(INIT, []) == INIT;
  }

  lemma Bounded(n: nat, v: Variant, backfill: bool, seen: set<State>, order: seq<State>)
    requires Found(n, v, backfill, seen, order)
    ensures |order| <= |Universe(n)|
  {
    forall s | s in seen ensures s in Universe(n) {
      InUniverse(n, s);
    }
    SubsetSize(seen, Universe(n));
  }

  /** When the queue is empty nothing reachable is missing. */
  lemma Complete(n: nat, v: Variant, backfill: bool, seen: set<State>, order: seq<State>, edges: seq<Arrow>)
    requires Found(n, v, backfill, seen, order) && INIT in seen
    requires Expanded(n, v, backfill, seen, order, |order|, edges) && Justified(n, v, backfill, seen, edges)
    ensures Distinct(order)
    ensures forall s :: s in order <==> Reachable(n, v, backfill, s)
    ensures forall s, e :: Reachable(n, v, backfill, s) && e in Succ(n, v, backfill, s) ==> ArrowOf(n, s, e) in edges
    ensures forall a :: a in edges ==>
              exists s, e :: Reachable(n, v, backfill, s) && e in Succ(n, v, backfill, s) && a == ArrowOf(n, s, e)
  {
    hide Succ, InRange;
    forall s | Reachable(n, v, backfill, s) ensures s in order {
      var run :| IsRun(n, v, backfill, INIT, run) && End(INIT, run) == s;
      RunFound(n, v, backfill, seen, order, edges, run);
    }
    forall s, e | Reachable(n, v, backfill, s) && e in Succ(n, v, backfill, s) ensures ArrowOf(n, s, e) in edges {
      var j :| 0 <= j < |order| && order[j] == s;
    }
    forall a | a in edges
      ensures exists s, e :: Reachable(n, v, backfill, s) && e in Succ(n, v, backfill, s) && a == ArrowOf(n, s, e)
    {
      var s, e :| s in seen && e in Succ(n, v, backfill, s) && a == ArrowOf(n, s, e);
    }
  }

  lemma {:induction false} RunFound(n: nat, v: Variant, backfill: bool, seen: set<State>, order: seq<State>,
                                    edges: seq<Arrow>, run: seq<Edge>)
    requires Found(n, v, backfill, seen, order) && INIT in seen
    requires Expanded(n, v, backfill, seen, order, |order|, edges) && IsRun(n, v, backfill, INIT, run)
    ensures End(INIT, run) in seen
  {
    hide Succ, InRange, Reachable;
    if run != [] {
      var k := |run| - 1;
      RunPrefix(n, v, backfill, INIT, run, k);
      RunFound(n, v, backfill, seen, order, edges, run[..k]);
      var j :| 0 <= j < |order| && order[j] == At(INIT, run, k);
      assert run[k] in Succ(n, v, backfill, order[j]);
    }
  }

  // ---- naming ------------------------------------------------------------------------------------------------

  /** The emitted automaton: the names of the reachable states and the three outcomes, and the named
      edges, with a self-loop on every outcome. */
  ghost predicate Emitted(n: nat, v: Variant, backfill: bool, names: seq<Name>, edges: seq<Arrow>) {
    && Distinct(names) && Distinct(edges)
    && (forall x :: x in names <==> x in OUTCOMES || exists s :: Reachable(n, v, backfill, s) && NameOf(n, s) == x)
    && (forall a :: a in edges <==> IsArrow(n, v, backfill, a))
  }

  ghost predicate IsArrow(n: nat, v: Variant, backfill: bool, a: Arrow) {
    || (exists s, e :: Reachable(n, v, backfill, s) && e in Succ(n, v, backfill, s) && a == ArrowOf(n, s, e))
    || (a.from in OUTCOMES && a == Arrow(a.from, [Sink], a.from))
  }

  function NamesOf(n: nat, order: seq<State>): (r: seq<Name>)
    ensures |r| == |order|
  {
    seq(|order|, i requires 0 <= i < |order| => NameOf(n, order[i]))
  }

  /** The loops of the outcomes among the first `k` that no reachable state has. */
  function MissingLoops(found: seq<Name>, k: nat): seq<Arrow>
    requires k <= 3
  {
    if k == 0 then []
    else MissingLoops(found, k - 1) + if OUTCOMES[k - 1] in found then [] else [Loop(OUTCOMES[k - 1])]
  }

  /** The emitted lists, in order: names and edges as the search meets them, each once, and the outcomes it did not
      meet. */
  ghost predicate Listed(n: nat, v: Variant, backfill: bool, order: seq<State>, names: seq<Name>, out: seq<Arrow>) {
    && names == Firsts(NamesOf(n, order) + OUTCOMES)
    && out == Firsts(ArrowsFrom(n, v, backfill, order) + MissingLoops(NamesOf(n, order), 3))
  }

  method Explore(n: nat, v: Variant, backfill: bool)
    returns (names: seq<Name>, out: seq<Arrow>, initial: Name, ghost order: seq<State>, ghost dist: seq<nat>)
    ensures Emitted(n, v, backfill, names, out) && initial == NameOf(n, INIT)
    ensures ByDistance(n, v, backfill, order, dist) && Listed(n, v, backfill, order, names, out)
  {
    hide Succ, Reachable, Universe, ByDistance, Firsts, MissingLoops, ArrowsFrom, Distinct;
    var states, edges;
    states, edges, dist := Search(n, v, backfill);
    order := states;
    names := [];
    NoFirsts<Name>();
    NoFirsts<Arrow>();
    ghost var all := NamesOf(n, states);
    assert all[..0] == [];
    for i := 0 to |states|
      invariant names == Firsts(all[..i])
    {
      var x := NameOf(n, states[i]);
      assert all[..i + 1] == all[..i] + [x];
      FirstsStep(all[..i], x);
      if x !in names {
        names := names + [x];
      }
    }
    assert all[..|states|] == all;
    ghost var recorded := edges;
    NoneMissing(all);
    assert all + OUTCOMES[..0] == all && recorded + MissingLoops(all, 0) == recorded;
    for i := 0 to |OUTCOMES|
      invariant names == Firsts(all + OUTCOMES[..i])
      invariant edges == recorded + MissingLoops(all, i)
    {
      var outcome := OUTCOMES[i];
      OutcomeStep(all, i);
      if outcome !in names {
        names := names + [outcome];
        edges := edges + [Loop(outcome)];
      }
    }
    assert OUTCOMES[..|OUTCOMES|] == OUTCOMES;
    out := [];
    assert edges[..0] == [];
    for i := 0 to |edges|
      invariant out == Firsts(edges[..i])
    {
      assert edges[..i + 1] == edges[..i] + [edges[i]];
      FirstsStep(edges[..i], edges[i]);
      if edges[i] !in out {
        out := out + [edges[i]];
      }
    }
    assert edges[..|edges|] == edges;
    ListedIsEmitted(n, v, backfill, states, recorded, names, out);
    initial := NameOf(n, INIT);
  }

  lemma NoneMissing(all: seq<Name>)
    ensures MissingLoops(all, 0) == []
  {
  }

  lemma OutcomeStep(all: seq<Name>, i: nat)
    requires i < 3
    ensures var x, before := OUTCOMES[i], all + OUTCOMES[..i];
            && Firsts(all + OUTCOMES[..i + 1]) == (if x in Firsts(before) then Firsts(before) else Firsts(before) + [x])
            && MissingLoops(all, i + 1) == MissingLoops(all, i) + if x in Firsts(before) then [] else [Loop(x)]
  {
    var x, before := OUTCOMES[i], all + OUTCOMES[..i];
    FirstsStep(before, x);
    assert before + [x] == all + OUTCOMES[..i + 1];
    assert x !in OUTCOMES[..i];
  }

  /** The lists have exactly the names and edges the automaton is to have. */
  lemma ListedIsEmitted(n: nat, v: Variant, backfill: bool, order: seq<State>, recorded: seq<Arrow>, names: seq<Name>,
                        out: seq<Arrow>)
    requires forall s :: s in order <==> Reachable(n, v, backfill, s)
    requires forall s, e :: Reachable(n, v, backfill, s) && e in Succ(n, v, backfill, s) ==>
            ArrowOf(n, s, e) in recorded
    requires forall a :: a in recorded ==>
               exists s, e :: Reachable(n, v, backfill, s) && e in Succ(n, v, backfill, s) && a == ArrowOf(n, s, e)
    requires names == Firsts(NamesOf(n, order) + OUTCOMES)
    requires out == Firsts(recorded + MissingLoops(NamesOf(n, order), 3))
    ensures Emitted(n, v, backfill, names, out)
  {
    hide Succ, Reachable, MissingLoops, Firsts, Distinct;
    var found := NamesOf(n, order);
    FirstsKeep(found + OUTCOMES);
    FirstsKeep(recorded + MissingLoops(found, 3));
    forall x ensures x in found <==> exists j :: 0 <= j < |order| && NameOf(n, order[j]) == x {
      if x in found {
        var j :| 0 <= j < |order| && found[j] == x;
      }
      if j :| 0 <= j < |order| && NameOf(n, order[j]) == x {
        assert found[j] == x;
      }
    }
    NamesComplete(n, v, backfill, order, found, names);
    forall a: Arrow ensures a in out <==> IsArrow(n, v, backfill, a) {
      ArrowsComplete(n, v, backfill, order, found, recorded, a);
      MissingMembers(found, 3, a);
    }
  }

  lemma {:induction false} MissingMembers(found: seq<Name>, k: nat, a: Arrow)
    requires k <= 3
    ensures a in MissingLoops(found, k) <==> a.from in OUTCOMES[..k] && a.from !in found && a == Loop(a.from)
  {
    if k > 0 {
      MissingMembers(found, k - 1, a);
      assert OUTCOMES[..k] == OUTCOMES[..k - 1] + [OUTCOMES[k - 1]];
    }
  }

  function Loop(x: Name): Arrow { Arrow(x, [Sink], x) }

  lemma NamesComplete(n: nat, v: Variant, backfill: bool, order: seq<State>, found: seq<Name>, names: seq<Name>)
    requires forall s :: s in order <==> Reachable(n, v, backfill, s)
    requires forall x :: x in found <==> exists j :: 0 <= j < |order| && NameOf(n, order[j]) == x
    requires forall x :: x in names <==> x in found || x in OUTCOMES
    ensures forall x :: x in names <==> x in OUTCOMES || exists s :: Reachable(n, v, backfill, s) && NameOf(n, s) == x
  {
    hide Reachable;
    forall x ensures x in found <==> exists s :: Reachable(n, v, backfill, s) && NameOf(n, s) == x {
      if x in found {
        var j :| 0 <= j < |order| && NameOf(n, order[j]) == x;
        assert order[j] in order;
      }
      if s :| Reachable(n, v, backfill, s) && NameOf(n, s) == x {
        assert s in order;
        var j :| 0 <= j < |order| && order[j] == s;
      }
    }
  }

  lemma ArrowsComplete(n: nat, v: Variant, backfill: bool, order: seq<State>, found: seq<Name>, recorded: seq<Arrow>,
                       a: Arrow)
    requires forall s :: s in order <==> Reachable(n, v, backfill, s)
    requires forall x :: x in found <==> exists j :: 0 <= j < |order| && NameOf(n, order[j]) == x
    requires forall s, e :: Reachable(n, v, backfill, s) && e in Succ(n, v, backfill, s) ==>
            ArrowOf(n, s, e) in recorded
    requires forall a :: a in recorded ==>
               exists s, e :: Reachable(n, v, backfill, s) && e in Succ(n, v, backfill, s) && a == ArrowOf(n, s, e)
    ensures IsArrow(n, v, backfill, a) <==>
            a in recorded || (a.from in OUTCOMES && a.from !in found && a == Loop(a.from))
  {
    hide Reachable;
    if a.from in OUTCOMES && a.from in found && a == Loop(a.from) {
      var j :| 0 <= j < |order| && NameOf(n, order[j]) == a.from;
      var s := order[j];
      assert s in order;
      OutcomeLoops(n, v, backfill, s);
      assert a == ArrowOf(n, s, Edge([Sink], s));
    }
  }

  lemma OutcomeLoops(n: nat, v: Variant, backfill: bool, s: State)
    requires NameOf(n, s) in OUTCOMES
    ensures Succ(n, v, backfill, s) == [Edge([Sink], s)]
  {
  }
}
