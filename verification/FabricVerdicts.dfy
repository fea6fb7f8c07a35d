/**
 The verdicts of the memory-fabric study, for a stream of any length `n + 1` and both schedules: which
 fault each variant can reach, whether completion can be lost, what is delivered and how fast.
 */
module FabricVerdicts {
  import opened Basics
  import opened Fabric

  predicate IsDone(n: nat, s: State) { s.err.None? && s.dlv > n }

  ghost predicate Reaches(n: nat, v: Variant, backfill: bool, fault: Fault) {
    exists run :: IsRun(n, v, backfill, INIT, run) && End(INIT, run).err == Some(fault)
  }

  /** From `s`, the stream can still complete. */
  ghost predicate CanComplete(n: nat, v: Variant, backfill: bool, s: State) {
    exists run :: IsRun(n, v, backfill, s, run) && IsDone(n, End(s, run))
  }

  /** AG EF DONE: from every reachable state the stream can still complete. */
  ghost predicate NeverWedged(n: nat, v: Variant, backfill: bool) {
    forall run :: IsRun(n, v, backfill, INIT, run) ==> CanComplete(n, v, backfill, End(INIT, run))
  }

  // ---- the moves of a cooperative environment ------------------------------------------------------------

  /** A grant from IDLE latches the pointer. */
  function AfterGrant(n: nat, v: Variant, s: State): State {
    State(Busy, if v == V3 && s.ptr <= n then s.ptr + 1 else s.ptr, Some(s.ptr), s.dlv, None)
  }

  /** An accept of the expected address, with no grant in the same edge. */
  function AfterAccept(v: Variant, s: State): State {
    State(Idle, if v == V3 then s.ptr else s.ptr + 1, None, s.dlv + 1, None)
  }

  lemma GrantMove(n: nat, v: Variant, backfill: bool, s: State)
    requires v != V1 && s.err.None? && s.dlv <= n && Sound(n, v, backfill, s) && s.loc == Idle
    ensures Edge([Grant], AfterGrant(n, v, s)) in Succ(n, v, backfill, s)
  {
    var e := Edge([Grant], AfterGrant(n, v, s));
    assert Registered(n, v, s, true, Nothing) == [e] by { assert [] + [Grant] == [Grant]; }
    assert e in GrantEdges(n, v, backfill, s, true);
  }

  lemma AcceptMove(n: nat, v: Variant, backfill: bool, s: State)
    requires v != V1 && s.err.None? && s.dlv <= n && Sound(n, v, backfill, s) && s.reg == Some(s.dlv)
    ensures Edge([Accept, NoGrant], AfterAccept(v, s)) in Succ(n, v, backfill, s)
  {
    var e := Edge([Accept, NoGrant], AfterAccept(v, s));
    assert Registered(n, v, s, false, Accepted) == [e] by { assert [Accept] + [NoGrant] == [Accept, NoGrant]; }
    assert e in GrantEdges(n, v, backfill, s, false);
  }

  /** A refused request of v2 or v3 is dropped. */
  lemma RefuseMove(n: nat, v: Variant, backfill: bool, s: State)
    requires v in {V2, V3} && s.err.None? && s.dlv <= n && Sound(n, v, backfill, s) && s.loc == Busy
    ensures Edge([Refuse, NoGrant], s.(loc := Idle, reg := None)) in Succ(n, v, backfill, s)
  {
    var e := Edge([Refuse, NoGrant], s.(loc := Idle, reg := None));
    assert Registered(n, v, s, false, Refused) == [e] by { assert [Refuse] + [NoGrant] == [Refuse, NoGrant]; }
    assert e in GrantEdges(n, v, backfill, s, false);
  }

  /** The edge that breaks v2: accept and grant coincide, and the grant latches the old pointer. */
  lemma CoincidentMove(n: nat, v: Variant, s: State)
    requires v in {V2, V3} && s.err.None? && s.dlv <= n && Sound(n, v, true, s) && s.reg == Some(s.dlv)
    ensures Edge([Accept, Grant], State(Busy, s.dlv + if v == V3 && s.dlv < n then 2 else 1,
                                        Some(if v == V3 then s.dlv + 1 else s.dlv), s.dlv + 1, None))
            in Succ(n, v, true, s)
  {
    var e := Edge([Accept, Grant], State(Busy, s.dlv + if v == V3 && s.dlv < n then 2 else 1,
                                         Some(if v == V3 then s.dlv + 1 else s.dlv), s.dlv + 1, None));
    assert Registered(n, v, s, true, Accepted) == [e] by { assert [Accept] + [Grant] == [Accept, Grant]; }
    assert e in GrantEdges(n, v, true, s, true);
  }

  lemma V1Move(n: nat, backfill: bool, s: State)
    requires s.err.None? && s.dlv <= n && Sound(n, V1, backfill, s)
    ensures Edge([Grant, Accept], State(Idle, s.dlv + 1, None, s.dlv + 1, None)) in Succ(n, V1, backfill, s)
  {
    assert V1Edges(s, true)[1] == Edge([Grant, Accept], State(Idle, s.dlv + 1, None, s.dlv + 1, None));
  }

  // ---- completion ----------------------------------------------------------------------------------------

  /** v3 has dropped a word the client has already advanced past. */
  predicate Lost(v: Variant, s: State) {
    v == V3 && (if s.loc == Idle then s.ptr > s.dlv else s.reg != Some(s.dlv))
  }

  lemma Extend(n: nat, v: Variant, backfill: bool, s: State, e: Edge)
    requires e in Succ(n, v, backfill, s) && CanComplete(n, v, backfill, e.next)
    ensures CanComplete(n, v, backfill, s)
  {
    hide Succ;
    var run :| IsRun(n, v, backfill, e.next, run) && IsDone(n, End(e.next, run));
    RunAppend(n, v, backfill, s, [e], run);
  }

  /** Every live state that has not lost a word can complete: each word takes one more hand-over. */
  lemma {:induction false} Completes(n: nat, v: Variant, backfill: bool, s: State)
    requires s.err.None? && Sound(n, v, backfill, s) && (s.dlv <= n ==> !Lost(v, s))
    ensures CanComplete(n, v, backfill, s)
    decreases n + 1 - s.dlv, if s.loc == Idle then 1 else if s.reg == Some(s.dlv) then 0 else 2
  {
    hide Succ;
    if s.dlv > n {
      assert IsRun(n, v, backfill, s, []);
    } else if v == V1 {
      V1Move(n, backfill, s);
      var e := Edge([Grant, Accept], State(Idle, s.dlv + 1, None, s.dlv + 1, None));
      Completes(n, v, backfill, e.next);
      Extend(n, v, backfill, s, e);
    } else if s.loc == Idle {
      GrantMove(n, v, backfill, s);
      Completes(n, v, backfill, AfterGrant(n, v, s));
      Extend(n, v, backfill, s, Edge([Grant], AfterGrant(n, v, s)));
    } else if s.reg == Some(s.dlv) {
      AcceptMove(n, v, backfill, s);
      Completes(n, v, backfill, AfterAccept(v, s));
      Extend(n, v, backfill, s, Edge([Accept, NoGrant], AfterAccept(v, s)));
    } else {
      RefuseMove(n, v, backfill, s);
      Completes(n, v, backfill, s.(loc := Idle, reg := None));
      Extend(n, v, backfill, s, Edge([Refuse, NoGrant], s.(loc := Idle, reg := None)));
    }
  }

  /** A lost word stays lost, and a fault is final. */
  predicate Hopeless(n: nat, v: Variant, s: State) {
    s.err.Some? || (s.dlv <= n && Lost(v, s))
  }

  lemma HopelessStep(n: nat, v: Variant, backfill: bool, s: State, e: Edge)
    requires Invariant(n, v, backfill, s) && Hopeless(n, v, s) && e in Succ(n, v, backfill, s)
    ensures Hopeless(n, v, e.next)
  {
    if s.err.None? {
      hide Succ;
      var grant, acc := EdgeOf(n, v, backfill, s, e);
    }
  }

  lemma {:induction false} HopelessForever(n: nat, v: Variant, backfill: bool, s: State, run: seq<Edge>)
    requires Invariant(n, v, backfill, s) && Hopeless(n, v, s) && IsRun(n, v, backfill, s, run)
    ensures Invariant(n, v, backfill, End(s, run)) && Hopeless(n, v, End(s, run))
  {
    hide Succ, Invariant, Hopeless;
    if run != [] {
      var k := |run| - 1;
      RunPrefix(n, v, backfill, s, run, k);
      HopelessForever(n, v, backfill, s, run[..k]);
      EdgeKeeps(n, v, backfill, At(s, run, k), run[k]);
      HopelessStep(n, v, backfill, At(s, run, k), run[k]);
    }
  }

  /** Completion is possible from a reachable state exactly when it is fault-free and has lost nothing. */
  lemma CompletionExactly(n: nat, v: Variant, backfill: bool, s: State)
    requires Invariant(n, v, backfill, s)
    ensures CanComplete(n, v, backfill, s) <==> !Hopeless(n, v, s)
  {
    if Hopeless(n, v, s) {
      forall run | IsRun(n, v, backfill, s, run) ensures !IsDone(n, End(s, run)) {
        HopelessForever(n, v, backfill, s, run);
      }
    } else {
      Completes(n, v, backfill, s);
    }
  }

  /** v3: after any refused grant, coincident with another or not, the stream can never complete. */
  lemma RefusalIsFatal(n: nat, backfill: bool, s: State, e: Edge)
    requires Invariant(n, V3, backfill, s) && e in Succ(n, V3, backfill, s) && Refuse in e.labels
    ensures !CanComplete(n, V3, backfill, e.next)
  {
    assert s.err.None? && s.dlv <= n;
    EdgeKeeps(n, V3, backfill, s, e);
    var grant, acc := EdgeOf(n, V3, backfill, s, e);
    assert Hopeless(n, V3, e.next);
    hide Succ;
    CompletionExactly(n, V3, backfill, e.next);
  }

  // ---- reachability of the faults ------------------------------------------------------------------------

  lemma V2Duplicates(n: nat)
    requires n >= 1
    ensures Reaches(n, V2, true, Dup)
  {
    hide Succ;
    var s1 := AfterGrant(n, V2, INIT);
    var s2 := State(Busy, 1, Some(0), 1, None);
    var s3 := State(Idle, 1, None, 1, Some(Dup));
    GrantMove(n, V2, true, INIT);
    CoincidentMove(n, V2, s1);
    StaleAccept(n, s2);
    var run := [Edge([Grant], s1), Edge([Accept, Grant], s2), Edge([Accept, NoGrant], s3)];
    assert IsRun(n, V2, true, INIT, run) by {
      forall k | 0 <= k < 3 ensures run[k] in Succ(n, V2, true, At(INIT, run, k)) {
        if k == 0 {} else if k == 1 {} else {}
      }
    }
    assert End(INIT, run).err == Some(Dup);
  }

  /** A latched address other than the expected one is a fault when it is accepted. */
  lemma StaleAccept(n: nat, s: State)
    requires s.err.None? && s.dlv <= n && s.loc == Busy && s.reg.Some? && s.reg.value != s.dlv
    ensures forall v, backfill :: v != V1 ==>
              Edge([Accept, NoGrant], State(Idle, s.ptr, None, s.dlv, Classify(s.reg.value, s.dlv)))
                in Succ(n, v, backfill, s)
  {
    forall v, backfill | v != V1
      ensures Edge([Accept, NoGrant], State(Idle, s.ptr, None, s.dlv, Classify(s.reg.value, s.dlv)))
                in Succ(n, v, backfill, s)
    {
      var e := Edge([Accept, NoGrant], State(Idle, s.ptr, None, s.dlv, Classify(s.reg.value, s.dlv)));
      assert Registered(n, v, s, false, Accepted) == [e] by { assert [Accept] + [NoGrant] == [Accept, NoGrant]; }
      assert e in GrantEdges(n, v, backfill, s, false);
    }
  }

  lemma V3Skips(n: nat, backfill: bool)
    ensures Reaches(n, V3, backfill, Skip)
  {
    hide Succ;
    var s1 := AfterGrant(n, V3, INIT);
    var s2 := s1.(loc := Idle, reg := None);
    var s3 := AfterGrant(n, V3, s2);
    var s4 := State(Idle, s3.ptr, None, 0, Some(Skip));
    GrantMove(n, V3, backfill, INIT);
    RefuseMove(n, V3, backfill, s1);
    GrantMove(n, V3, backfill, s2);
    StaleAccept(n, s3);
    var run := [Edge([Grant], s1), Edge([Refuse, NoGrant], s2), Edge([Grant], s3), Edge([Accept, NoGrant], s4)];
    assert IsRun(n, V3, backfill, INIT, run) by {
      forall k | 0 <= k < 4 ensures run[k] in Succ(n, V3, backfill, At(INIT, run, k)) {
        if k == 0 {} else if k == 1 {} else if k == 2 {} else {}
      }
    }
    assert End(INIT, run).err == Some(Skip);
  }

  lemma NoOtherFault(n: nat, v: Variant, backfill: bool, run: seq<Edge>)
    requires IsRun(n, v, backfill, INIT, run)
    ensures End(INIT, run).err == Some(Dup) ==> v == V2 && backfill && n >= 1
    ensures End(INIT, run).err == Some(Skip) ==> v == V3
  {
    RunKeeps(n, v, backfill, run);
  }

  lemma FaultVerdicts(n: nat, v: Variant, backfill: bool)
    ensures Reaches(n, v, backfill, Dup) <==> v == V2 && backfill && n >= 1
    ensures Reaches(n, v, backfill, Skip) <==> v == V3
  {
    hide IsRun, End;
    if run :| IsRun(n, v, backfill, INIT, run) && End(INIT, run).err == Some(Dup) {
      NoOtherFault(n, v, backfill, run);
    }
    if run :| IsRun(n, v, backfill, INIT, run) && End(INIT, run).err == Some(Skip) {
      NoOtherFault(n, v, backfill, run);
    }
    if v == V2 && backfill && n >= 1 {
      V2Duplicates(n);
    }
    if v == V3 {
      V3Skips(n, backfill);
    }
  }

  lemma FaultWedges(n: nat, v: Variant, backfill: bool, fault: Fault)
    requires Reaches(n, v, backfill, fault)
    ensures !NeverWedged(n, v, backfill)
  {
    hide IsRun, End, CanComplete, Invariant;
    var run :| IsRun(n, v, backfill, INIT, run) && End(INIT, run).err == Some(fault);
    RunKeeps(n, v, backfill, run);
    CompletionExactly(n, v, backfill, End(INIT, run));
  }

  lemma SoundRunsComplete(n: nat, v: Variant, backfill: bool, run: seq<Edge>)
    requires IsRun(n, v, backfill, INIT, run)
    requires v in {V1, V4} || (v == V2 && (!backfill || n == 0))
    ensures CanComplete(n, v, backfill, End(INIT, run))
  {
    hide IsRun, End, CanComplete;
    RunKeeps(n, v, backfill, run);
    CompletionExactly(n, v, backfill, End(INIT, run));
  }

  /** The study's table, exactly, for every stream length and both schedules. */
  lemma Verdicts(n: nat, v: Variant, backfill: bool)
    ensures Reaches(n, v, backfill, Dup) <==> v == V2 && backfill && n >= 1
    ensures Reaches(n, v, backfill, Skip) <==> v == V3
    ensures CanComplete(n, v, backfill, INIT)
    ensures NeverWedged(n, v, backfill) <==> v in {V1, V4} || (v == V2 && (!backfill || n == 0))
  {
    hide IsRun, End, CanComplete, Reaches;
    FaultVerdicts(n, v, backfill);
    CompletionExactly(n, v, backfill, INIT);
    if v == V2 && backfill && n >= 1 {
      FaultWedges(n, v, backfill, Dup);
    } else if v == V3 {
      FaultWedges(n, v, backfill, Skip);
    } else {
      forall run | IsRun(n, v, backfill, INIT, run) ensures CanComplete(n, v, backfill, End(INIT, run)) {
        SoundRunsComplete(n, v, backfill, run);
      }
    }
  }

  // ---- what is delivered ---------------------------------------------------------------------------------

  /** The address an edge hands to the memory, if it is an accept. */
  function Issued(v: Variant, s: State, e: Edge): seq<nat> {
    if Accept !in e.labels then []
    else if v == V1 then [s.ptr]
    else if s.reg.Some? then [s.reg.value] else []
  }

  /** The addresses a run hands to the memory, in order. */
  function Delivered(v: Variant, run: seq<Edge>): seq<nat> {
    if run == [] then []
    else Delivered(v, run[..|run| - 1]) + Issued(v, At(INIT, run, |run| - 1), run[|run| - 1])
  }

  function UpTo(n: nat): seq<nat> { if n == 0 then [] else UpTo(n - 1) + [n - 1] }

  /** The first `dlv` words in order; after a fault, those and the faulty address. */
  predicate InOrder(v: Variant, s: State, addrs: seq<nat>) {
    match s.err
    case None => addrs == UpTo(s.dlv)
    case Some(Dup) => |addrs| == s.dlv + 1 && addrs[..s.dlv] == UpTo(s.dlv) && addrs[s.dlv] < s.dlv
    case Some(Skip) => |addrs| == s.dlv + 1 && addrs[..s.dlv] == UpTo(s.dlv) && addrs[s.dlv] > s.dlv
  }

  lemma {:induction false} UpToLength(n: nat)
    ensures |UpTo(n)| == n
  {
    if n > 0 {
      UpToLength(n - 1);
    }
  }

  lemma IssueStep(n: nat, v: Variant, backfill: bool, s: State, e: Edge, addrs: seq<nat>)
    requires Invariant(n, v, backfill, s) && e in Succ(n, v, backfill, s) && InOrder(v, s, addrs)
    ensures InOrder(v, e.next, addrs + Issued(v, s, e))
  {
    UpToLength(s.dlv);
    assert addrs + [] == addrs;
    if s.err.None? && s.dlv <= n {
      if v == V1 {
        assert e in V1Edges(s, false) || e in V1Edges(s, true);
      } else {
        hide Succ;
        var grant, acc := EdgeOf(n, v, backfill, s, e);
        RegisteredIssue(n, v, s, grant, acc, e);
      }
    }
  }

  lemma RegisteredIssue(n: nat, v: Variant, s: State, grant: bool, acc: Retire, e: Edge)
    requires v != V1 && (s.loc == Idle <==> acc == Nothing) && (s.loc == Idle <==> s.reg.None?)
    requires e in Registered(n, v, s, grant, acc)
    ensures Issued(v, s, e) == if acc == Accepted then [s.reg.value] else []
    ensures acc == Accepted ==> e.next.err == Classify(s.reg.value, s.dlv)
    ensures e.next.dlv == s.dlv + if acc == Accepted && s.reg.value == s.dlv then 1 else 0
    ensures acc != Accepted ==> e.next.err.None?
  {
  }

  /** On every run of every variant, the memory has been handed exactly 0, 1, 2, ... until the first
      fault, and the fault names what was wrong with the address that raised it. */
  lemma {:induction false} OracleExact(n: nat, v: Variant, backfill: bool, run: seq<Edge>)
    requires IsRun(n, v, backfill, INIT, run)
    ensures InOrder(v, End(INIT, run), Delivered(v, run))
  {
    hide Succ, InOrder, Issued;
    if run == [] {
      assert InOrder(v, INIT, []) by { UpToLength(0); InOrderStart(v); }
    } else {
      var k := |run| - 1;
      RunPrefix(n, v, backfill, INIT, run, k);
      OracleExact(n, v, backfill, run[..k]);
      RunKeeps(n, v, backfill, run[..k]);
      IssueStep(n, v, backfill, At(INIT, run, k), run[k], Delivered(v, run[..k]));
    }
  }

  lemma InOrderStart(v: Variant)
    ensures InOrder(v, INIT, [])
  {
  }

  /** The sound variants: on every run the accepted addresses are exactly 0, 1, 2, ... and no fault. */
  lemma SoundDelivery(n: nat, v: Variant, backfill: bool, run: seq<Edge>)
    requires v in {V1, V4} && IsRun(n, v, backfill, INIT, run)
    ensures End(INIT, run).err.None? && Delivered(v, run) == UpTo(End(INIT, run).dlv)
  {
    RunKeeps(n, v, backfill, run);
    OracleExact(n, v, backfill, run);
  }

  // ---- how fast ------------------------------------------------------------------------------------------

  /** The fewest edges in which `d` words can be delivered. */
  function Cost(v: Variant, backfill: bool, d: nat): nat {
    match v
    case V1 => d
    case V2 => 2 * d
    case V3 => if !backfill then 2 * d else if d == 0 then 0 else d + 1
    case V4 => 2 * d
  }

  /** A lower bound on the edges a run from reset has taken to be in `s`. */
  function Spent(v: Variant, backfill: bool, s: State): nat {
    match v
    case V1 => s.dlv
    case V2 => 2 * s.dlv + if s.reg == Some(s.dlv) then 1 else 0
    case V3 =>
      if !backfill then 2 * s.dlv + if s.loc == Busy then 1 else 0
      else s.dlv + if s.dlv > 0 || s.loc == Busy || s.ptr > 0 then 1 else 0
    case V4 => 2 * s.dlv + if s.loc == Busy then 1 else 0
  }

  lemma SpendStep(n: nat, v: Variant, backfill: bool, s: State, e: Edge)
    requires Invariant(n, v, backfill, s) && e in Succ(n, v, backfill, s)
    ensures Spent(v, backfill, e.next) <= Spent(v, backfill, s) + 1
  {
    if s.err.None? && s.dlv <= n {
      if v == V1 {
        assert e in V1Edges(s, false) || e in V1Edges(s, true);
      } else {
        hide Succ;
        var grant, acc := EdgeOf(n, v, backfill, s, e);
      }
    }
  }

  lemma {:induction false} RunSpends(n: nat, v: Variant, backfill: bool, run: seq<Edge>)
    requires IsRun(n, v, backfill, INIT, run)
    ensures |run| >= Spent(v, backfill, End(INIT, run)) >= Cost(v, backfill, End(INIT, run).dlv)
  {
    hide Succ;
    if run != [] {
      var k := |run| - 1;
      RunPrefix(n, v, backfill, INIT, run, k);
      RunSpends(n, v, backfill, run[..k]);
      RunKeeps(n, v, backfill, run[..k]);
      SpendStep(n, v, backfill, At(INIT, run, k), run[k]);
    }
  }

  /** The state a fastest run is in after delivering `d` words. */
  function Paced(n: nat, v: Variant, backfill: bool, d: nat): State {
    if v == V3 && backfill && d > 0 then State(Busy, if d <= n then d + 1 else d, Some(d), d, None)
    else State(Idle, d, None, d, None)
  }

  /** A run of `Cost(v, backfill, d)` edges that delivers `d` words without a fault. */
  lemma {:induction false} FastRun(n: nat, v: Variant, backfill: bool, d: nat) returns (run: seq<Edge>)
    requires d <= n + 1
    ensures IsRun(n, v, backfill, INIT, run) && |run| == Cost(v, backfill, d)
            && End(INIT, run) == Paced(n, v, backfill, d)
    decreases d
  {
    hide Succ;
    if d == 0 {
      run := [];
    } else {
      hide *;
      var before := FastRun(n, v, backfill, d - 1);
      var more := PacedStep(n, v, backfill, d);
      RunAppend(n, v, backfill, INIT, before, more);
      run := before + more;
    }
  }

  /** One delivery at full pace. */
  lemma PacedStep(n: nat, v: Variant, backfill: bool, d: nat) returns (more: seq<Edge>)
    requires 0 < d <= n + 1
    ensures IsRun(n, v, backfill, Paced(n, v, backfill, d - 1), more)
            && |more| == Cost(v, backfill, d) - Cost(v, backfill, d - 1)
    ensures End(Paced(n, v, backfill, d - 1), more) == Paced(n, v, backfill, d)
  {
    hide Succ;
    var s := Paced(n, v, backfill, d - 1);
    if v == V1 {
      V1Move(n, backfill, s);
      more := [Edge([Grant, Accept], Paced(n, v, backfill, d))];
    } else if v == V3 && backfill && d > 1 {
      CoincidentMove(n, V3, s);
      more := [Edge([Accept, Grant], Paced(n, v, backfill, d))];
    } else {
      GrantMove(n, v, backfill, s);
      var g := AfterGrant(n, v, s);
      if v == V3 && backfill {
        CoincidentMove(n, V3, g);
        more := [Edge([Grant], g), Edge([Accept, Grant], Paced(n, v, backfill, d))];
      } else {
        AcceptMove(n, v, backfill, g);
        more := [Edge([Grant], g), Edge([Accept, NoGrant], Paced(n, v, backfill, d))];
      }
    }
  }

  /** The throughput column, on both schedules: `d` words can be delivered by some run of `k` edges exactly
      when `k >= Cost(v, backfill, d)`.  Registering the mux (v2, v4) costs two edges a word on either one;
      v1 takes one, and v3 one after the pipeline fill with backfill but two without. */
  lemma Throughput(n: nat, v: Variant, backfill: bool, d: nat, k: nat)
    requires d <= n + 1
    ensures (exists run :: IsRun(n, v, backfill, INIT, run) && |run| == k && End(INIT, run).dlv >= d) <==>
            k >= Cost(v, backfill, d)
  {
    hide Succ;
    if k >= Cost(v, backfill, d) {
      var fast := FastRun(n, v, backfill, d);
      var idle := IdleRun(n, v, backfill, k - Cost(v, backfill, d));
      RunAppend(n, v, backfill, INIT, idle, fast);
      assert |idle + fast| == k;
    }
    forall run | IsRun(n, v, backfill, INIT, run) && |run| == k && End(INIT, run).dlv >= d
      ensures k >= Cost(v, backfill, d) {
      RunSpends(n, v, backfill, run);
    }
  }

  lemma {:induction false} IdleRun(n: nat, v: Variant, backfill: bool, k: nat) returns (run: seq<Edge>)
    ensures IsRun(n, v, backfill, INIT, run) && |run| == k && End(INIT, run) == INIT
  {
    if k == 0 {
      run := [];
    } else {
      var before := IdleRun(n, v, backfill, k - 1);
      var e := Edge([NoGrant], INIT);
      assert e in Succ(n, v, backfill, INIT) by {
        assert [] + [NoGrant] == [NoGrant];
        assert GrantEdges(n, v, backfill, INIT, false) == [e];
      }
      hide Succ;
      RunAppend(n, v, backfill, INIT, before, [e]);
      run := before + [e];
    }
  }
}
