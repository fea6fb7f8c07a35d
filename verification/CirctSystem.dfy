/**
 The second half of `extract_reactive_system`: the transition list over the whole product, the breadth-first
 search from the reset state, and the pruned system.
 */
module CirctSystem {

  import opened Arith
  import opened Basics
  import opened CirctEval
  import opened CirctExtract

  datatype Transition = Transition(from: seq<I64>, to: State, input: seq<I64>)

  datatype System = System(states: seq<State>, initials: seq<State>, transitions: seq<Transition>, total: nat,
                           reachable: nat)

  datatype Extraction = NoRegisters | Extracted(system: System)

  predicate Fits(d: Design, states: seq<seq<I64>>, inputs: seq<seq<I64>>) {
    && (forall s :: s in states ==> |s| == |d.registers|)
    && (forall c :: c in inputs ==> |c| == |DataInputs(d.inputs)|)
  }

  // ---- the transition list ------------------------------------------------------------------------------------

  /** The transitions the first `i` states emit, and the first `j` inputs of the next one. */
  predicate Emitted(d: Design, states: seq<seq<I64>>, inputs: seq<seq<I64>>, i: nat, j: nat, t: Transition)
    requires Fits(d, states, inputs) && i <= |states| && j <= |inputs|
  {
    && |t.from| == |d.registers| && |t.input| == |DataInputs(d.inputs)|
    && t.to == Next(d, t.from, t.input)
    && ((t.from in states[..i] && t.input in inputs) || (i < |states| && t.from == states[i] && t.input in inputs[..j]))
  }

  /** The transition is that of the state at `i` and the input at `j`. */
  predicate At(states: seq<seq<I64>>, inputs: seq<seq<I64>>, t: Transition, i: int, j: int) {
    0 <= i < |states| && 0 <= j < |inputs| && states[i] == t.from && inputs[j] == t.input
  }

  /** By state, and for one state by input. */
  ghost predicate Sooner(states: seq<seq<I64>>, inputs: seq<seq<I64>>, t: Transition, u: Transition) {
    exists i, j, k, l :: At(states, inputs, t, i, j) && At(states, inputs, u, k, l) && (i < k || (i == k && j < l))
  }

  ghost predicate RowByRow(states: seq<seq<I64>>, inputs: seq<seq<I64>>, ts: seq<Transition>) {
    forall a, b :: 0 <= a < b < |ts| ==> Sooner(states, inputs, ts[a], ts[b])
  }

  /** The transition comes before the state at `i` with the input at `j`. */
  ghost predicate Earlier(states: seq<seq<I64>>, inputs: seq<seq<I64>>, t: Transition, i: nat, j: nat) {
    exists k, l :: At(states, inputs, t, k, l) && (k < i || (k == i && l < j))
  }

  lemma RowGrows(states: seq<seq<I64>>, inputs: seq<seq<I64>>, ts: seq<Transition>, key: Transition, i: nat, j: nat)
    requires RowByRow(states, inputs, ts) && At(states, inputs, key, i, j)
    requires forall t :: t in ts ==> Earlier(states, inputs, t, i, j)
    ensures RowByRow(states, inputs, ts + [key])
    ensures forall t :: t in ts + [key] ==> Earlier(states, inputs, t, i, j + 1)
  {
    forall a, b | 0 <= a < b < |ts + [key]| ensures Sooner(states, inputs, (ts + [key])[a], (ts + [key])[b]) {
      if b == |ts| {
        assert ts[a] in ts;
        var k, l :| At(states, inputs, ts[a], k, l) && (k < i || (k == i && l < j));
        assert At(states, inputs, key, i, j);
      } else {
        assert Sooner(states, inputs, ts[a], ts[b]);
      }
    }
    forall t | t in ts + [key] ensures Earlier(states, inputs, t, i, j + 1) {
      if t in ts {
        var k, l :| At(states, inputs, t, k, l) && (k < i || (k == i && l < j));
      }
    }
  }

  lemma NoRows(states: seq<seq<I64>>, inputs: seq<seq<I64>>)
    ensures RowByRow(states, inputs, [])
  {
  }

  lemma RowEnds(states: seq<seq<I64>>, inputs: seq<seq<I64>>, ts: seq<Transition>, i: nat)
    requires forall t :: t in ts ==> Earlier(states, inputs, t, i, |inputs|)
    ensures forall t :: t in ts ==> Earlier(states, inputs, t, i + 1, 0)
  {
    forall t | t in ts ensures Earlier(states, inputs, t, i + 1, 0) {
      var k, l :| At(states, inputs, t, k, l) && (k < i || (k == i && l < |inputs|));
    }
  }

  lemma EarlierStill(states: seq<seq<I64>>, inputs: seq<seq<I64>>, ts: seq<Transition>, i: nat, j: nat)
    requires forall t :: t in ts ==> Earlier(states, inputs, t, i, j)
    ensures forall t :: t in ts ==> Earlier(states, inputs, t, i, j + 1)
  {
    forall t | t in ts ensures Earlier(states, inputs, t, i, j + 1) {
      var k, l :| At(states, inputs, t, k, l) && (k < i || (k == i && l < j));
    }
  }

  method BuildTransitions(d: Design, states: seq<seq<I64>>, inputs: seq<seq<I64>>) returns (ts: seq<Transition>)
    requires Fits(d, states, inputs)
    ensures Distinct(ts) && RowByRow(states, inputs, ts)
    ensures forall t :: t in ts <==> Emitted(d, states, inputs, |states|, 0, t)
  {
    hide Next, RowByRow, Earlier;
    ts := [];
    NoRows(states, inputs);
    var seen: set<Transition> := {};
    for i := 0 to |states|
      invariant Distinct(ts) && seen == (set t | t in ts)
      invariant RowByRow(states, inputs, ts) && forall t :: t in ts ==> Earlier(states, inputs, t, i, 0)
      invariant forall t :: t in ts <==> Emitted(d, states, inputs, i, 0, t)
    {
      for j := 0 to |inputs|
        invariant Distinct(ts) && seen == (set t | t in ts)
        invariant RowByRow(states, inputs, ts) && forall t :: t in ts ==> Earlier(states, inputs, t, i, j)
        invariant forall t :: t in ts <==> Emitted(d, states, inputs, i, j, t)
      {
        var to := Successor(d, states[i], inputs[j]);
        var key := Transition(states[i], to, inputs[j]);
        EmittedNext(d, states, inputs, i, j, key);
        if key !in seen {
          RowGrows(states, inputs, ts, key, i, j);
          seen := seen + {key};
          ts := ts + [key];
        } else {
          EarlierStill(states, inputs, ts, i, j);
        }
      }
      RowEnds(states, inputs, ts, i);
      EmittedRow(d, states, inputs, i);
    }
  }

  lemma EmittedNext(d: Design, states: seq<seq<I64>>, inputs: seq<seq<I64>>, i: nat, j: nat, key: Transition)
    requires Fits(d, states, inputs) && i < |states| && j < |inputs|
    requires key == Transition(states[i], Next(d, states[i], inputs[j]), inputs[j])
    ensures forall t :: Emitted(d, states, inputs, i, j + 1, t) <==> Emitted(d, states, inputs, i, j, t) || t == key
  {
    assert inputs[..j + 1] == inputs[..j] + [inputs[j]];
    forall t ensures Emitted(d, states, inputs, i, j + 1, t) <==> Emitted(d, states, inputs, i, j, t) || t == key {
      hide Next;
      if t == key {
        assert t.input in inputs[..j + 1];
      } else if Emitted(d, states, inputs, i, j + 1, t) && t.from == states[i] {
        assert t.input != inputs[j];
      }
    }
  }

  lemma EmittedRow(d: Design, states: seq<seq<I64>>, inputs: seq<seq<I64>>, i: nat)
    requires Fits(d, states, inputs) && i < |states|
    ensures forall t :: Emitted(d, states, inputs, i + 1, 0, t) <==> Emitted(d, states, inputs, i, |inputs|, t)
  {
    assert states[..i + 1] == states[..i] + [states[i]];
    assert inputs[..|inputs|] == inputs;
  }

  // ---- runs and reachability -------------------------------------------------------------------------------------

  function End(s: State, run: seq<Transition>): State {
    if run == [] then s else run[|run| - 1].to
  }

  /** A run from `s`: transitions of the list, each starting where the one before it ended. */
  predicate IsRun(ts: seq<Transition>, s: State, run: seq<Transition>) {
    run == [] || (var init := run[..|run| - 1];
                  IsRun(ts, s, init) && run[|run| - 1] in ts && run[|run| - 1].from == End(s, init))
  }

  ghost predicate Reaches(ts: seq<Transition>, s: State, t: State) {
    exists run :: IsRun(ts, s, run) && End(s, run) == t
  }

  lemma ReachesStep(ts: seq<Transition>, s: State, t: Transition)
    requires Reaches(ts, s, t.from) && t in ts
    ensures Reaches(ts, s, t.to)
  {
    var run :| IsRun(ts, s, run) && End(s, run) == t.from;
    var more := run + [t];
    assert more[..|more| - 1] == run;
    assert IsRun(ts, s, more) && End(s, more) == t.to;
  }

  lemma {:induction false} ClosedHoldsRuns(ts: seq<Transition>, s: State, set_: set<State>, run: seq<Transition>)
    requires s in set_ && (forall t :: t in ts && t.from in set_ ==> t.to in set_) && IsRun(ts, s, run)
    ensures End(s, run) in set_
  {
    if run != [] {
      ClosedHoldsRuns(ts, s, set_, run[..|run| - 1]);
    }
  }

  /** The queue search: exactly the states some run from the initial one ends in. */
  method Search(initial: State, ts: seq<Transition>) returns (reachable: set<State>)
    ensures forall s :: s in reachable <==> Reaches(ts, initial, s)
  {
    hide Reaches, IsRun;
    reachable := {};
    var queue := [initial];
    ghost var universe := {initial} + set t | t in ts :: t.to;
    assert Reaches(ts, initial, initial) by { ReachesSelf(ts, initial); }
    while queue != []
      invariant initial in reachable || initial in queue
      invariant forall s :: s in reachable || s in queue ==> Reaches(ts, initial, s) && s in universe
      invariant forall t :: t in ts && t.from in reachable ==> t.to in reachable || t.to in queue
      decreases |universe - reachable|, |queue|
    {
      var current := queue[0];
      ghost var whole := queue;
      queue := queue[1..];
      assert whole == [current] + queue;
      if current in reachable {
        continue;
      }
      ghost var before := reachable;
      reachable := reachable + {current};
      OneLess(universe, before, current);
      queue := Enqueue(initial, ts, current, reachable, queue);
    }
    forall s | Reaches(ts, initial, s) ensures s in reachable {
      ClosedHolds(ts, initial, reachable, s);
    }
  }

  lemma OneLess(universe: set<State>, before: set<State>, x: State)
    requires x in universe && x !in before
    ensures |universe - (before + {x})| < |universe - before|
  {
    assert universe - (before + {x}) == (universe - before) - {x};
  }

  /** The neighbours of `current` that are not marked yet go to the end of the queue. */
  method Enqueue(initial: State, ts: seq<Transition>, current: State, reachable: set<State>, pending: seq<State>)
    returns (queue: seq<State>)
    requires Reaches(ts, initial, current)
    ensures pending <= queue
    ensures forall s :: s in queue ==> s in pending || (Reaches(ts, initial, s) && exists t :: t in ts && t.to == s)
    ensures forall t :: t in ts && t.from == current ==> t.to in reachable || t.to in queue
  {
    hide Reaches, IsRun;
    queue := pending;
    for k := 0 to |ts|
      invariant pending <= queue
      invariant forall s :: s in queue ==> s in pending || (Reaches(ts, initial, s) && exists t :: t in ts && t.to == s)
      invariant forall i :: 0 <= i < k && ts[i].from == current ==> ts[i].to in reachable || ts[i].to in queue
    {
      if ts[k].from == current && ts[k].to !in reachable {
        ReachesStep(ts, initial, ts[k]);
        queue := queue + [ts[k].to];
      }
    }
  }

  lemma ReachesSelf(ts: seq<Transition>, s: State)
    ensures Reaches(ts, s, s)
  {
    assert IsRun(ts, s, []) && End(s, []) == s;
  }

  lemma ClosedHolds(ts: seq<Transition>, s: State, set_: set<State>, t: State)
    requires s in set_ && (forall t :: t in ts && t.from in set_ ==> t.to in set_) && Reaches(ts, s, t)
    ensures t in set_
  {
    var run :| IsRun(ts, s, run) && End(s, run) == t;
    ClosedHoldsRuns(ts, s, set_, run);
  }

  // ---- pruning ----------------------------------------------------------------------------------------------------

  method Prune(ts: seq<Transition>, reachable: set<State>) returns (kept: seq<Transition>, ghost at: seq<nat>)
    requires Distinct(ts)
    ensures Picks(ts, at, kept)
    ensures forall t :: t in kept <==> t in ts && t.from in reachable && t.to in reachable
    ensures Distinct(kept)
  {
    hide Picks;
    kept, at := [], [];
    PicksNothing(ts[..0]);
    for i := 0 to |ts|
      invariant Picks(ts[..i], at, kept)
      invariant forall t :: t in kept <==> t in ts[..i] && t.from in reachable && t.to in reachable
      invariant Distinct(kept)
    {
      assert ts[..i + 1] == ts[..i] + [ts[i]] && ts[i] !in ts[..i];
      PicksKept(ts[..i], at, kept, ts[i]);
      if ts[i].from in reachable && ts[i].to in reachable {
        PicksLast(ts[..i], at, kept, ts[i]);
        kept, at := kept + [ts[i]], at + [i];
      }
    }
    assert ts[..|ts|] == ts;
  }

  method KeepStates(all: seq<seq<I64>>, reachable: set<State>)
    returns (kept: seq<State>, ghost at: seq<nat>)
    requires Distinct(all)
    ensures Picks(all, at, kept)
    ensures forall s :: s in kept <==> s in all && s in reachable
    ensures Distinct(kept)
  {
    hide Picks;
    kept, at := [], [];
    PicksNothing<State>(all[..0]);
    for i := 0 to |all|
      invariant Picks(all[..i], at, kept)
      invariant forall s :: s in kept <==> s in all[..i] && s in reachable
      invariant Distinct(kept)
    {
      assert all[..i + 1] == all[..i] + [all[i]] && all[i] !in all[..i];
      PicksKept<State>(all[..i], at, kept, all[i]);
      if all[i] in reachable {
        PicksLast<State>(all[..i], at, kept, all[i]);
        kept, at := kept + [all[i]], at + [i];
      }
    }
    assert all[..|all|] == all;
  }

  /** `kept` is `ts` restricted to the states reachable from `s`. */
  ghost predicate Pruned(ts: seq<Transition>, s: State, kept: seq<Transition>) {
    forall t :: t in kept <==> t in ts && Reaches(ts, s, t.from) && Reaches(ts, s, t.to)
  }

  /** Pruning keeps exactly the runs from the initial state. */
  lemma {:induction false} PruningKeepsRuns(ts: seq<Transition>, s: State, kept: seq<Transition>, run: seq<Transition>)
    requires Pruned(ts, s, kept)
    ensures IsRun(kept, s, run) <==> IsRun(ts, s, run)
  {
    if run != [] {
      var init, t := run[..|run| - 1], run[|run| - 1];
      PruningKeepsRuns(ts, s, kept, init);
      if IsRun(ts, s, run) {
        assert Reaches(ts, s, End(s, init));
        ReachesStep(ts, s, t);
      }
    }
  }

  // ---- the extracted system -------------------------------------------------------------------------------------

  ghost function AllStates(d: Design): seq<seq<I64>> { Product(RegDomains(d)) }

  ghost function AllInputs(d: Design): seq<seq<I64>> { Product(InputDomains(d)) }

  lemma SpacesFit(d: Design)
    ensures Fits(d, AllStates(d), AllInputs(d))
    ensures Distinct(AllStates(d)) && Distinct(AllInputs(d))
  {
    hide Product;
    forall s | s in AllStates(d) ensures |s| == |d.registers| { ProductMembers(RegDomains(d), s); }
    forall c | c in AllInputs(d) ensures |c| == |DataInputs(d.inputs)| { ProductMembers(InputDomains(d), c); }
    forall i | 0 <= i < |d.registers| ensures Distinct(RegDomains(d)[i]) { ValuesAreDomain(d.registers[i].width); }
    ProductDistinct(RegDomains(d));
    ProductDistinct(InputDomains(d));
  }

  /** The unpruned list: one transition for each product state and each input. */
  ghost predicate Full(d: Design, ts: seq<Transition>) {
    forall t :: t in ts <==> Allowed(d, t)
  }

  predicate Allowed(d: Design, t: Transition) {
    && |t.from| == |d.registers| && |t.input| == |DataInputs(d.inputs)|
    && t.from in Product(RegDomains(d)) && t.input in Product(InputDomains(d))
    && t.to == Next(d, t.from, t.input)
  }

  /** What the pruned system holds, for a full list `ts`. */
  ghost predicate Holds(d: Design, ts: seq<Transition>, sys: System) {
    && Full(d, ts)
    && Pruned(ts, Initial(d), sys.transitions)
    && Distinct(sys.transitions)
    && (forall s :: s in sys.states <==> s in AllStates(d) && Reaches(ts, Initial(d), s))
    && Distinct(sys.states)
    && sys.initials == (if Initial(d) in sys.states then [Initial(d)] else [])
    && sys.total == |AllStates(d)|
    && sys.reachable == |sys.states|
  }

  /** The lists keep the order of the enumeration: states as the product lists them, transitions state by state. */
  ghost predicate InOrder(d: Design, ts: seq<Transition>, sys: System) {
    && RowByRow(AllStates(d), AllInputs(d), ts)
    && (exists at :: Picks(AllStates(d), at, sys.states))
    && (exists at :: Picks(ts, at, sys.transitions))
  }

  method ExtractReactiveSystem(d: Design) returns (r: Extraction, ghost ts: seq<Transition>)
    ensures r.NoRegisters? <==> d.registers == []
    ensures r.Extracted? ==> Holds(d, ts, r.system) && InOrder(d, ts, r.system)
  {
    hide Product, Next, Reaches, IsRun, Distinct, RowByRow, Picks;
    if d.registers == [] {
      ts := [];
      return NoRegisters, [];
    }
    SpacesFit(d);
    var all := EnumerateProduct(RegDomains(d));
    var inputs := EnumerateProduct(InputDomains(d));
    var full := BuildTransitions(d, all, inputs);
    ts := full;
    FullList(d, full);
    var initial := Initial(d);
    var reachable := Search(initial, full);
    var states, _ := KeepStates(all, reachable);
    var kept, _ := Prune(full, reachable);
    var initials: seq<State> := [];
    if initial in states {
      initials := [initial];
    }
    return Extracted(System(states, initials, kept, |all|, |states|)), full;
  }

  lemma FullList(d: Design, ts: seq<Transition>)
    requires Fits(d, AllStates(d), AllInputs(d))
    requires forall t :: t in ts <==> Emitted(d, AllStates(d), AllInputs(d), |AllStates(d)|, 0, t)
    ensures Full(d, ts)
  {
    hide Product, Next;
    assert AllStates(d)[..|AllStates(d)|] == AllStates(d);
  }

  // ---- exactly one successor, inside the product ----------------------------------------------------------------

  /** Registers of 1 to 4 bits, each reset to a value of its domain. */
  predicate Narrow(d: Design) {
    forall i :: 0 <= i < |d.registers| ==>
      1 <= d.registers[i].width <= 4 && InDomain(d.registers[i].width, Initial(d)[i])
  }

  lemma InProduct(d: Design, s: State)
    ensures s in AllStates(d) <==>
            |s| == |d.registers| && forall i :: 0 <= i < |s| ==> InDomain(d.registers[i].width, s[i])
  {
    hide Product, InDomain;
    if |s| == |d.registers| && forall i :: 0 <= i < |s| ==> InDomain(d.registers[i].width, s[i]) {
      forall i | 0 <= i < |s| ensures -8 <= s[i] <= 7 && s[i] in RegDomains(d)[i] {
        ValuesAreDomain(d.registers[i].width);
        SmallValue(d.registers[i].width, s[i]);
      }
      var t: seq<I64> := s;
      ProductMembers(RegDomains(d), t);
    }
    if s in AllStates(d) {
      ProductMembers(RegDomains(d), s);
      forall i | 0 <= i < |s| ensures InDomain(d.registers[i].width, s[i]) {
        ValuesAreDomain(d.registers[i].width);
        assert s[i] in RegDomains(d)[i];
      }
    }
  }

  lemma SmallValue(w: nat, v: int)
    requires InDomain(w, v)
    ensures -8 <= v <= 7
  {
    DomainSmall(w);
  }

  /** With narrow registers every successor of a product state is a product state. */
  lemma NextInProduct(d: Design, s: seq<I64>, input: seq<I64>)
    requires Narrow(d) && |s| == |d.registers| && |input| == |DataInputs(d.inputs)|
    ensures Next(d, s, input) in AllStates(d)
  {
    var t := Next(d, s, input);
    forall i | 0 <= i < |t| ensures InDomain(d.registers[i].width, t[i]) {
      DomainClosedExactly(d.registers[i].width);
    }
    InProduct(d, t);
  }

  lemma {:induction false} RunsStayInProduct(d: Design, ts: seq<Transition>, run: seq<Transition>)
    requires Narrow(d) && Full(d, ts) && IsRun(ts, Initial(d), run)
    ensures End(Initial(d), run) in AllStates(d)
  {
    hide Next, Product, InDomain;
    if run == [] {
      InProduct(d, Initial(d));
    } else {
      var t := run[|run| - 1];
      assert t in ts && Allowed(d, t);
      NextInProduct(d, t.from, t.input);
    }
  }

  /** The extracted system is total and deterministic: each of its states has, for each input, exactly one
      transition, and it leads to one of its states; the reset state is its one initial state. */
  lemma ExtractedIsDeterministic(d: Design, ts: seq<Transition>, sys: System, s: State, input: seq<I64>)
    requires Narrow(d) && Holds(d, ts, sys) && input in AllInputs(d) && s in sys.states
    ensures sys.initials == [Initial(d)]
    ensures exists t :: t in sys.transitions && t.from == s && t.input == input && t.to in sys.states
    ensures forall t, u ::
              t in sys.transitions && u in sys.transitions && t.from == s == u.from && t.input == input == u.input ==>
              t == u
  {
    hide Next, Product, InDomain, IsRun, Reaches, Distinct;
    SpacesFit(d);
    InProduct(d, Initial(d));
    ReachesSelf(ts, Initial(d));
    assert s in AllStates(d);
    InProduct(d, s);
    var k :| 0 <= k < |AllStates(d)| && AllStates(d)[k] == s;
    var from := AllStates(d)[k];
    var t := Transition(from, Next(d, from, input), input);
    assert Allowed(d, t);
    ReachesStep(ts, Initial(d), t);
    NextInProduct(d, from, input);
    assert t in sys.transitions;
    forall u, v | u in sys.transitions && v in sys.transitions && u.from == s == v.from && u.input == input == v.input
      ensures u == v {
      assert Allowed(d, u) && Allowed(d, v);
    }
  }

  /** Its states are exactly the states of the runs from reset, and its runs exactly those runs. */
  lemma ExtractedHasTheRuns(d: Design, ts: seq<Transition>, sys: System, run: seq<Transition>)
    requires Narrow(d) && Holds(d, ts, sys)
    ensures IsRun(sys.transitions, Initial(d), run) <==> IsRun(ts, Initial(d), run)
    ensures IsRun(ts, Initial(d), run) ==> End(Initial(d), run) in sys.states
  {
    hide Next, Product, Distinct;
    PruningKeepsRuns(ts, Initial(d), sys.transitions, run);
    if IsRun(ts, Initial(d), run) {
      RunsStayInProduct(d, ts, run);
    }
  }

  // ---- where the closure fails ----------------------------------------------------------------------------------

  /** A reset value outside its register's domain (as `true` for a 1-bit register, whose domain is -1 and 0) gives a
      system with no states and no transitions; and only that does. */
  lemma EmptyExactlyOnBadReset(d: Design, ts: seq<Transition>, sys: System)
    requires Holds(d, ts, sys)
    ensures sys.states == [] <==> exists i :: 0 <= i < |d.registers| && !InDomain(d.registers[i].width, Initial(d)[i])
    ensures sys.states == [] ==> sys.transitions == []
  {
    hide Next, Product, InDomain, Distinct;
    var s := Initial(d);
    FirstIsMember(sys.states);
    FirstIsMember(sys.transitions);
    InProduct(d, s);
    ReachesSelf(ts, s);
    if s in AllStates(d) {
      assert s in sys.states;
    } else {
      forall t | t in ts ensures t.from != s { assert Allowed(d, t); }
      forall r | Reaches(ts, s, r) ensures r == s {
        var run :| IsRun(ts, s, run) && End(s, run) == r;
        NoWayOut(ts, s, run);
      }
      assert forall r :: r !in sys.states;
      assert forall t :: t !in sys.transitions;
    }
  }

  lemma FirstIsMember<T>(s: seq<T>)
    ensures s == [] || s[0] in s
  {
  }

  lemma {:induction false} NoWayOut(ts: seq<Transition>, s: State, run: seq<Transition>)
    requires (forall t :: t in ts ==> t.from != s) && IsRun(ts, s, run)
    ensures run == []
  {
    if run != [] {
      NoWayOut(ts, s, run[..|run| - 1]);
    }
  }

  lemma TrueIsNoResetOfABit(ops: Ops, name: string)
    requires name in ops && ops[name] == Constant(LTrue)
    ensures !InDomain(1, ResetValue(ops, name)) && Wrap(1, ResetValue(ops, name)) == -1
  {
    assert Pow2(1) == 2;
  }

  /** A wide register escapes its domain: the constant 2 as its next value leads from the reset state to a state
      that is not in the product, so the transition's target is not a state of the system. */
  lemma WideRegisterEscapes(d: Design, ts: seq<Transition>, sys: System, w: nat)
    requires w > 4 && d == Design(map["%2" := Constant(Decimal(2))], [Reg("r", "%2", "%0", w)], [])
    requires Holds(d, ts, sys)
    ensures exists t :: t in sys.transitions && t.from == [0] && t.to == [2] && t.to !in sys.states
  {
    hide Product, IsRun, Reaches, Distinct, EvalAll;
    SpacesFit(d);
    InProduct(d, [0]);
    InProduct(d, [2]);
    assert Initial(d) == [0];
    ReachesSelf(ts, [0]);
    ProductMembers(InputDomains(d), []);
    WideNext(d, w);
    var from: seq<I64> := [0];
    var t := Transition(from, [2], []);
    assert Allowed(d, t);
    ReachesStep(ts, [0], t);
    assert t in sys.transitions;
  }

  lemma WideNext(d: Design, w: nat)
    requires w > 4 && d == Design(map["%2" := Constant(Decimal(2))], [Reg("r", "%2", "%0", w)], [])
    ensures Next(d, [0], []) == [2]
  {
    var env := EnvOf(d, [0], []);
    var names := Nexts(d);
    assert names == ["%2"] && names[..0] == [];
    assert RegNames(d) == ["r"] && RegNames(d)[..0] == [];
    assert Bind(map[], [], []) == map[];
    assert env == map["r" := 0];
    assert "%2"[0] != "r"[0];
    assert EvalAll(d.ops, [], env, map[], 0) == ([], map[]);
    assert Eval(d.ops, "%2", env, map[], 0).0 == 2;
    assert EvalAll(d.ops, names, env, map[], 0).0 == [] + [2];
    TwoEscapes(w);
  }
}
