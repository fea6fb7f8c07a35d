/**
 The cone sizes that `scripts/profile_cases.py` and `scripts/bitcap_frontier.py` state for the control, counting and
 raster benchmarks, each proved of the listing the generator emits.
 */
module ConeSizes {

  import opened Arith
  import opened Basics
  import opened Btor
  import opened FsmParts
  import opened Cones
  import TimeoutCircuit
  import TimeoutFsm
  import PairCircuit
  import HandshakePair
  import TwoCounter
  import TwoCounterRuns
  import Raster
  import Frontier

  // ---- the timeout machine -------------------------------------------------------------------------------------

  /** Where the WAIT arm of the timeout listing starts. */
  function WaitAt(stuck: bool): nat { if stuck then 29 else 30 }

  function TimeoutArms(stuck: bool): seq<int> {
    [WaitAt(stuck) + 3, 18, WaitAt(stuck) + 2, 20, 16, if stuck then 21 else 30]
  }

  lemma TimeoutHead(ls: Listing, w: nat, stuck: bool)
    requires TimeoutFsm.Benchmark(ls, w, stuck)
    ensures At(ls, 12, State(2, "fsm_st"))
  {
    hide Codes, Compares, WellFormed, TimeoutCircuit.Arms, TimeoutCircuit.Tail, TimeoutFsm.Header,
        TimeoutCircuit.PortsOk;
  }

  lemma TimeoutArmLines(ls: Listing, w: nat, stuck: bool)
    requires TimeoutFsm.Benchmark(ls, w, stuck)
    ensures At(ls, 28, Bin(Eq, 1, 14, 7)) && (stuck || At(ls, 30, Ite(2, 6, 16, 21)))
    ensures var x := WaitAt(stuck);
            At(ls, x + 1, Ite(2, 28, 21, 18)) && At(ls, x + 2, Ite(2, 5, 19, x + 1)) && At(ls, x + 3, Ite(2, 4, 17, 16))
  {
    hide WellFormed, TimeoutCircuit.Head, TimeoutCircuit.Tail, TimeoutFsm.Header, TimeoutCircuit.PortsOk;
  }

  lemma TimeoutTail(ls: Listing, w: nat, stuck: bool)
    requires TimeoutFsm.Benchmark(ls, w, stuck)
    ensures var x := WaitAt(stuck);
            Selects(ls, x + 3, 2, 21, TimeoutArms(stuck), 16) && At(ls, x + 10, Next(2, 12, x + 9))
  {
    hide Selects, WellFormed, TimeoutCircuit.Head, TimeoutCircuit.Arms, TimeoutFsm.Header, TimeoutCircuit.PortsOk;
  }

  /** The next state's selection chain, from its outermost line at `WaitAt + 9` inwards. */
  lemma TimeoutChain(ls: Listing, w: nat, stuck: bool)
    requires TimeoutFsm.Benchmark(ls, w, stuck)
    ensures var x := WaitAt(stuck);
            && Reads(ls, 12, x + 9) && Reads(ls, x + 9, x + 3) && Reads(ls, x + 9, x + 8) && Reads(ls, x + 8, x + 7)
            && Reads(ls, x + 7, x + 2) && Reads(ls, x + 7, x + 6) && Reads(ls, x + 6, x + 5) && Reads(ls, x + 5, x + 4)
            && (!stuck ==> Reads(ls, x + 4, 30))
  {
    hide Reads, Selects, TimeoutFsm.Benchmark;
    var x, arms := WaitAt(stuck), TimeoutArms(stuck);
    TimeoutHead(ls, w, stuck);
    TimeoutTail(ls, w, stuck);
    StateReads(ls, 12, x + 10, x + 9);
    SelectReads(ls, x + 3, 2, 21, arms, 16, 0);
    SelectReads(ls, x + 3, 2, 21, arms, 16, 1);
    SelectReads(ls, x + 3, 2, 21, arms, 16, 2);
    SelectReads(ls, x + 3, 2, 21, arms, 16, 3);
    SelectReads(ls, x + 3, 2, 21, arms, 16, 4);
    SelectReads(ls, x + 3, 2, 21, arms, 16, 5);
  }

  lemma IteReads(ls: Listing, id: int, c: int, t: int, e: int)
    requires exists s :: At(ls, id, Ite(s, c, t, e))
    requires c > 0 && t > 0 && e > 0
    ensures Reads(ls, id, c) && Reads(ls, id, t) && Reads(ls, id, e)
  {
  }

  lemma BinReads(ls: Listing, id: int, a: int, b: int)
    requires exists op, s :: At(ls, id, Bin(op, s, a, b))
    requires a > 0 && b > 0
    ensures Reads(ls, id, a) && Reads(ls, id, b)
  {
  }

  lemma ArmReads(ls: Listing, w: nat, stuck: bool)
    requires TimeoutFsm.Benchmark(ls, w, stuck)
    ensures var x := WaitAt(stuck);
            && Reads(ls, x + 3, 4) && Reads(ls, x + 2, 5) && Reads(ls, x + 2, x + 1) && Reads(ls, x + 1, 28)
            && Reads(ls, 28, 14) && Reads(ls, 28, 7) && (!stuck ==> Reads(ls, 30, 6))
  {
    hide Reads, TimeoutFsm.Benchmark;
    var x := WaitAt(stuck);
    TimeoutArmLines(ls, w, stuck);
    IteReads(ls, x + 3, 4, 17, 16);
    IteReads(ls, x + 2, 5, 19, x + 1);
    IteReads(ls, x + 1, 28, 21, 18);
    BinReads(ls, 28, 14, 7);
    if !stuck {
      IteReads(ls, 30, 6, 16, 21);
    }
  }

  lemma TimeoutReaches(ls: Listing, w: nat, stuck: bool)
    requires TimeoutFsm.Benchmark(ls, w, stuck)
    ensures InCone(ls, 12, 4) && InCone(ls, 12, 5) && InCone(ls, 12, 7) && InCone(ls, 12, 12) && InCone(ls, 12, 14)
    ensures !stuck ==> InCone(ls, 12, 6)
  {
    hide Reads, InCone, TimeoutFsm.Benchmark;
    var x := WaitAt(stuck);
    TimeoutChain(ls, w, stuck);
    ArmReads(ls, w, stuck);
    ConeStart(ls, 12);
    ConeStep(ls, 12, 12, x + 9);
    ConeStep(ls, 12, x + 9, x + 3);
    ConeStep(ls, 12, x + 3, 4);
    ConeStep(ls, 12, x + 9, x + 8);
    ConeStep(ls, 12, x + 8, x + 7);
    ConeStep(ls, 12, x + 7, x + 2);
    ConeStep(ls, 12, x + 2, 5);
    ConeStep(ls, 12, x + 2, x + 1);
    ConeStep(ls, 12, x + 1, 28);
    ConeStep(ls, 12, 28, 14);
    ConeStep(ls, 12, 28, 7);
    if !stuck {
      ConeStep(ls, 12, x + 7, x + 6);
      ConeStep(ls, 12, x + 6, x + 5);
      ConeStep(ls, 12, x + 5, x + 4);
      ConeStep(ls, 12, x + 4, 30);
      ConeStep(ls, 12, 30, 6);
    }
  }

  /** The line names `id` neither as an operand nor as a next value. */
  predicate Spares(line: Line, id: int) {
    match line
    case Not(_, a) => Abs(a) != id
    case Bin(_, _, a, b) => Abs(a) != id && Abs(b) != id
    case Ite(_, c, t, e) => Abs(c) != id && Abs(t) != id && Abs(e) != id
    case Next(_, _, v) => Abs(v) != id
    case _ => true
  }

  lemma StuckHeadSpares(ls: Listing, w: nat, i: nat)
    requires TimeoutFsm.Header(ls, w) && TimeoutCircuit.Head(ls, 8, TimeoutFsm.TIMEOUT_PORTS, "fsm") && i < 27 <= |ls|
    ensures Spares(ls[i], 6)
  {
  }

  lemma StuckArmsSpare(ls: Listing, i: nat)
    requires TimeoutCircuit.Arms(ls, 8, TimeoutFsm.TIMEOUT_PORTS, true, false) && 27 <= i < 32 <= |ls|
    ensures Spares(ls[i], 6)
  {
  }

  lemma StuckTailSpares(ls: Listing, i: nat)
    requires TimeoutCircuit.Tail(ls, 8, TimeoutFsm.TIMEOUT_PORTS, true, false) && 32 <= i < 43 <= |ls|
    ensures Spares(ls[i], 6)
  {
    if i < 38 {
      assert ls[i] == SelectLine(32, 2, 21, TimeoutCircuit.ArmList(8, true, false), TimeoutCircuit.Code(8, 0), i);
    }
  }

  /** The stuck listing never reads `clr`. */
  lemma StuckSparesClr(ls: Listing, w: nat)
    requires TimeoutFsm.Benchmark(ls, w, true)
    ensures forall x :: !Reads(ls, x, 6)
  {
    hide TimeoutFsm.Header, TimeoutCircuit.Head, TimeoutCircuit.Arms, TimeoutCircuit.Tail, WellFormed, Spares;
    forall i | 0 <= i < |ls| ensures Spares(ls[i], 6) {
      if i < 27 {
        StuckHeadSpares(ls, w, i);
      } else if i < 32 {
        StuckArmsSpare(ls, i);
      } else {
        StuckTailSpares(ls, i);
      }
    }
    SparedIsUnread(ls, 6);
  }

  lemma SparedIsUnread(ls: Listing, id: int)
    requires forall i :: 0 <= i < |ls| ==> Spares(ls[i], id)
    ensures forall x :: !Reads(ls, x, id)
  {
    forall x ensures !Reads(ls, x, id) {
      if 1 <= x <= |ls| {
        assert Spares(ls[x - 1], id);
      }
    }
  }

  lemma TimeoutWidths(ls: Listing, w: nat, stuck: bool)
    requires TimeoutFsm.Benchmark(ls, w, stuck)
    ensures Width(ls, 4) == 1 && Width(ls, 5) == 1 && Width(ls, 6) == 1 && Width(ls, 7) == w && Width(ls, 12) == 3
            && Width(ls, 14) == w
    ensures forall id :: IsBit(ls, id) <==> id in {4, 5, 6, 7, 12, 14}
  {
    hide TimeoutCircuit.Circuit, TimeoutCircuit.PortsOk, WellFormed;
    TimeoutFsm.OtherLines(ls, w, stuck);
    forall id ensures IsBit(ls, id) <==> id in {4, 5, 6, 7, 12, 14} {
      if IsBit(ls, id) {
        assert id - 1 in {3, 4, 5, 6, 11, 13};
      }
    }
  }

  /** 2w + 6 kept bits, and 2w + 5 for the stuck twin, which never reads `clr`. */
  lemma TimeoutCone(ls: Listing, w: nat, stuck: bool)
    requires TimeoutFsm.Benchmark(ls, w, stuck)
    ensures var ids := if stuck then [4, 5, 7, 12, 14] else [4, 5, 6, 7, 12, 14];
            ConeIs(ls, 12, ids) && TotalWidth(ls, ids) == 2 * w + if stuck then 5 else 6
  {
    hide TimeoutFsm.Benchmark, InCone, IsBit, Width;
    TimeoutWidths(ls, w, stuck);
    TimeoutReaches(ls, w, stuck);
    if stuck {
      StuckSparesClr(ls, w);
      NeverRead(ls, 12, 6);
      Sum5(ls, 4, 5, 7, 12, 14);
    } else {
      Sum5(ls, 5, 6, 7, 12, 14);
      assert [4, 5, 6, 7, 12, 14][1..] == [5, 6, 7, 12, 14];
    }
  }

  lemma Sum5(ls: Listing, a: int, b: int, c: int, d: int, e: int)
    ensures TotalWidth(ls, [a, b, c, d, e]) == Width(ls, a) + Width(ls, b) + Width(ls, c) + Width(ls, d) + Width(ls, e)
  {
    hide Width;
    assert [a, b, c, d, e][1..] == [b, c, d, e] && [b, c, d, e][1..] == [c, d, e];
    assert [c, d, e][1..] == [d, e] && [d, e][1..] == [e] && [e][1..] == [];
    assert TotalWidth(ls, [e]) == Width(ls, e);
    assert TotalWidth(ls, [d, e]) == Width(ls, d) + TotalWidth(ls, [e]);
    assert TotalWidth(ls, [c, d, e]) == Width(ls, c) + TotalWidth(ls, [d, e]);
    assert TotalWidth(ls, [b, c, d, e]) == Width(ls, b) + TotalWidth(ls, [c, d, e]);
  }

  // ---- the requester/granter pair ------------------------------------------------------------------------------

  lemma PairReaches(ls: Listing, w: nat)
    requires PairCircuit.Pair(ls, w)
    ensures forall id :: id in [4, 5, 6, 7, 12, 14, 16, 18] ==> InCone(ls, 12, id)
  {
    hide Reads, InCone, PairCircuit.Header, PairCircuit.Registers, PairCircuit.Decoders, PairCircuit.Signals,
         PairCircuit.ReqArms, PairCircuit.GntArms, PairCircuit.Selections, PairCircuit.Timers;
    ConeStart(ls, 12);
    RequesterReads(ls, w);
    GranterReads(ls, w);
    ConeStep(ls, 12, 12, 54);
    ConeStep(ls, 12, 54, 48);
    ConeStep(ls, 12, 48, 4);
    ConeStep(ls, 12, 54, 53);
    ConeStep(ls, 12, 53, 52);
    ConeStep(ls, 12, 52, 46);
    ConeStep(ls, 12, 46, 39);
    ConeStep(ls, 12, 39, 34);
    ConeStep(ls, 12, 34, 14);
    ConeStep(ls, 12, 46, 45);
    ConeStep(ls, 12, 45, 42);
    ConeStep(ls, 12, 42, 16);
    ConeStep(ls, 12, 42, 7);
    ConeStep(ls, 12, 52, 51);
    ConeStep(ls, 12, 51, 47);
    ConeStep(ls, 12, 47, 5);
    ConeStep(ls, 12, 51, 50);
    ConeStep(ls, 12, 50, 49);
    ConeStep(ls, 12, 49, 44);
    ConeStep(ls, 12, 44, 6);
    ConeStep(ls, 12, 14, 65);
    ConeStep(ls, 12, 65, 64);
    ConeStep(ls, 12, 64, 63);
    ConeStep(ls, 12, 63, 62);
    ConeStep(ls, 12, 62, 58);
    ConeStep(ls, 12, 58, 57);
    ConeStep(ls, 12, 57, 43);
    ConeStep(ls, 12, 43, 18);
  }

  lemma RequesterReads(ls: Listing, w: nat)
    requires PairCircuit.Pair(ls, w)
    ensures Reads(ls, 12, 54) && Reads(ls, 54, 48) && Reads(ls, 48, 4) && Reads(ls, 54, 53) && Reads(ls, 53, 52)
    ensures Reads(ls, 52, 46) && Reads(ls, 46, 39) && Reads(ls, 39, 34) && Reads(ls, 34, 14) && Reads(ls, 46, 45)
    ensures Reads(ls, 45, 42) && Reads(ls, 42, 16) && Reads(ls, 42, 7) && Reads(ls, 52, 51) && Reads(ls, 51, 47)
    ensures Reads(ls, 47, 5) && Reads(ls, 51, 50) && Reads(ls, 50, 49) && Reads(ls, 49, 44) && Reads(ls, 44, 6)
  {
    hide PairCircuit.Header, Reads;
    PairChains(ls, w);
    PairStates(ls, w);
    StateReads(ls, 12, 55, 54);
    PairArms(ls, w);
    IteReads(ls, 48, 4, 21, 20);
    IteReads(ls, 46, 39, 23, 45);
    IteReads(ls, 45, 42, 25, 22);
    IteReads(ls, 47, 5, 24, 23);
    IteReads(ls, 44, 6, 20, 25);
    BinReads(ls, 39, 34, 35);
    BinReads(ls, 34, 14, 22);
    BinReads(ls, 42, 16, 7);
  }

  lemma GranterReads(ls: Listing, w: nat)
    requires PairCircuit.Pair(ls, w)
    ensures Reads(ls, 14, 65) && Reads(ls, 65, 64) && Reads(ls, 64, 63) && Reads(ls, 63, 62) && Reads(ls, 62, 58)
    ensures Reads(ls, 58, 57) && Reads(ls, 57, 43) && Reads(ls, 43, 18)
  {
    hide PairCircuit.Header, Reads;
    PairChains(ls, w);
    PairStates(ls, w);
    StateReads(ls, 14, 66, 65);
    PairArms(ls, w);
    IteReads(ls, 58, 40, 24, 57);
    IteReads(ls, 57, 43, 25, 23);
    BinReads(ls, 43, 18, 7);
  }

  lemma PairStates(ls: Listing, w: nat)
    requires PairCircuit.Pair(ls, w)
    ensures |ls| == 74 && ls[11].State? && ls[13].State? && ls[54] == Next(2, 12, 54) && ls[65] == Next(2, 14, 65)
  {
    hide PairCircuit.Header, PairCircuit.Decoders, PairCircuit.Signals, PairCircuit.ReqArms, PairCircuit.GntArms,
         PairCircuit.Timers, Selects;
  }

  lemma PairArms(ls: Listing, w: nat)
    requires PairCircuit.Pair(ls, w)
    ensures At(ls, 48, Ite(2, 4, 21, 20)) && At(ls, 46, Ite(2, 39, 23, 45)) && At(ls, 45, Ite(2, 42, 25, 22))
    ensures At(ls, 47, Ite(2, 5, 24, 23)) && At(ls, 44, Ite(2, 6, 20, 25)) && At(ls, 58, Ite(2, 40, 24, 57))
    ensures At(ls, 57, Ite(2, 43, 25, 23)) && At(ls, 39, Bin(Or, 1, 34, 35)) && At(ls, 34, Bin(Eq, 1, 14, 22))
    ensures At(ls, 42, Bin(Eq, 1, 16, 7)) && At(ls, 43, Bin(Eq, 1, 18, 7))
  {
    hide PairCircuit.Header, PairCircuit.Registers, PairCircuit.Timers, PairCircuit.Selections;
  }

  /** Both selection chains, line after line. */
  lemma PairChains(ls: Listing, w: nat)
    requires PairCircuit.Pair(ls, w)
    ensures Reads(ls, 54, 48) && Reads(ls, 54, 53) && Reads(ls, 53, 52) && Reads(ls, 52, 46) && Reads(ls, 52, 51)
    ensures Reads(ls, 51, 47) && Reads(ls, 51, 50) && Reads(ls, 50, 49) && Reads(ls, 49, 44)
    ensures Reads(ls, 65, 64) && Reads(ls, 64, 63) && Reads(ls, 63, 62) && Reads(ls, 62, 58)
  {
    hide PairCircuit.Header, PairCircuit.Registers, PairCircuit.Decoders, PairCircuit.Signals, PairCircuit.ReqArms,
         PairCircuit.GntArms, PairCircuit.Timers, Selects, Reads;
    SelectReads(ls, 48, 2, 25, PairCircuit.REQ_ARMS, 20, 0);
    SelectReads(ls, 48, 2, 25, PairCircuit.REQ_ARMS, 20, 1);
    SelectReads(ls, 48, 2, 25, PairCircuit.REQ_ARMS, 20, 2);
    SelectReads(ls, 48, 2, 25, PairCircuit.REQ_ARMS, 20, 3);
    SelectReads(ls, 48, 2, 25, PairCircuit.REQ_ARMS, 20, 4);
    SelectReads(ls, 48, 2, 25, PairCircuit.REQ_ARMS, 20, 5);
    SelectReads(ls, 59, 2, 31, PairCircuit.GNT_ARMS, 20, 0);
    SelectReads(ls, 59, 2, 31, PairCircuit.GNT_ARMS, 20, 1);
    SelectReads(ls, 59, 2, 31, PairCircuit.GNT_ARMS, 20, 2);
    SelectReads(ls, 59, 2, 31, PairCircuit.GNT_ARMS, 20, 3);
  }

  lemma PairWidths(ls: Listing, w: nat)
    requires PairCircuit.Pair(ls, w)
    ensures Width(ls, 4) == 1 && Width(ls, 5) == 1 && Width(ls, 6) == 1 && Width(ls, 7) == w
    ensures Width(ls, 12) == 3 && Width(ls, 14) == 3 && Width(ls, 16) == w && Width(ls, 18) == w
    ensures forall id :: id in [4, 5, 6, 7, 12, 14, 16, 18] ==> IsBit(ls, id)
  {
    hide PairCircuit.Decoders, PairCircuit.Signals, PairCircuit.ReqArms, PairCircuit.GntArms, PairCircuit.Timers,
         PairCircuit.Selections;
  }

  lemma PairBits(ls: Listing, w: nat, id: int)
    requires PairCircuit.Pair(ls, w) && IsBit(ls, id)
    ensures id in [4, 5, 6, 7, 12, 14, 16, 18]
  {
    hide PairCircuit.Pair;
    HandshakePair.StateLines(ls, w, id - 1);
    assert id == (id - 1) + 1;
  }

  /** 3w + 9 kept bits. */
  lemma PairCone(ls: Listing, w: nat)
    requires PairCircuit.Pair(ls, w)
    ensures var ids := [4, 5, 6, 7, 12, 14, 16, 18]; ConeIs(ls, 12, ids) && TotalWidth(ls, ids) == 3 * w + 9
  {
    hide PairCircuit.Pair, InCone, IsBit, Width;
    var ids := [4, 5, 6, 7, 12, 14, 16, 18];
    PairWidths(ls, w);
    PairReaches(ls, w);
    forall id | IsBit(ls, id) ensures id in ids {
      PairBits(ls, w, id);
    }
    Sum5(ls, 7, 12, 14, 16, 18);
    var more, rest := [5, 6, 7, 12, 14, 16, 18], [6, 7, 12, 14, 16, 18];
    assert ids[1..] == more && more[1..] == rest && rest[1..] == [7, 12, 14, 16, 18];
    assert TotalWidth(ls, rest) == 1 + TotalWidth(ls, [7, 12, 14, 16, 18]);
    assert TotalWidth(ls, more) == 1 + TotalWidth(ls, rest);
  }

  // ---- the counters ---------------------------------------------------------------------------------------------

  lemma CounterReads(m: nat)
    requires m >= 1
    ensures var ls := TwoCounter.Latched(m);
            && Reads(ls, 21, 25) && Reads(ls, 25, 24) && Reads(ls, 24, 13) && Reads(ls, 24, 14) && Reads(ls, 13, 5)
            && Reads(ls, 14, 6) && Reads(ls, 5, 17) && Reads(ls, 17, 3)
  {
    var ls := TwoCounter.Latched(m);
    hide TwoCounter.Latched, TwoCounter.CommonLines, WellFormed, Reads;
    TwoCounter.LatchedOk(m);
    TwoCounterRuns.LatchedStates(m);
    assert At(ls, 26, Next(1, 21, 25)) && At(ls, 25, Bin(Or, 1, 21, 24)) && At(ls, 24, Bin(And, 1, 13, 14));
    hide TwoCounter.DoneLines;
    assert At(ls, 13, Bin(Eq, 1, 5, 12)) && At(ls, 14, Bin(Eq, 1, 6, 12)) && At(ls, 17, Ite(2, 3, 15, 5))
        && At(ls, 19, Next(2, 5, 17));
    hide TwoCounter.CounterLines;
    StateReads(ls, 21, 26, 25);
    BinReads(ls, 25, 21, 24);
    BinReads(ls, 24, 13, 14);
    BinReads(ls, 13, 5, 12);
    BinReads(ls, 14, 6, 12);
    StateReads(ls, 5, 19, 17);
    IteReads(ls, 17, 3, 15, 5);
  }

  lemma CounterReaches(m: nat)
    requires m >= 1
    ensures forall id :: id in [3, 5, 6, 21] ==> InCone(TwoCounter.Latched(m), 21, id)
  {
    var ls := TwoCounter.Latched(m);
    hide TwoCounter.Latched, InCone, Reads;
    CounterReads(m);
    ConeStart(ls, 21);
    ConeStep(ls, 21, 21, 25);
    ConeStep(ls, 21, 25, 24);
    ConeStep(ls, 21, 24, 13);
    ConeStep(ls, 21, 24, 14);
    ConeStep(ls, 21, 13, 5);
    ConeStep(ls, 21, 14, 6);
    ConeStep(ls, 21, 5, 17);
    ConeStep(ls, 21, 17, 3);
  }

  lemma CounterBits(m: nat)
    requires m >= 1
    ensures var ls := TwoCounter.Latched(m);
            && (forall id :: IsBit(ls, id) <==> id in [3, 5, 6, 21])
            && Width(ls, 3) == 1 && Width(ls, 5) == Bits(m) && Width(ls, 6) == Bits(m) && Width(ls, 21) == 1
  {
    var ls := TwoCounter.Latched(m);
    TwoCounter.LatchedOk(m);
    TwoCounterRuns.LatchedStates(m);
    TwoCounter.CommonWidths(ls, Bits(m));
    assert Width(ls, 21) == 1;
    hide TwoCounter.Latched, TwoCounter.CommonLines, TwoCounter.CounterLines, TwoCounter.DoneLines, WellFormed, Width;
    forall id ensures IsBit(ls, id) <==> id in [3, 5, 6, 21] {
      if IsBit(ls, id) {
        TwoCounterRuns.LatchedSlots(m, id - 1);
      }
    }
  }

  /** 2w + 2 kept bits for counters of w bits. */
  lemma CounterCone(m: nat)
    requires m >= 1
    ensures ConeIs(TwoCounter.Latched(m), 21, [3, 5, 6, 21])
            && TotalWidth(TwoCounter.Latched(m), [3, 5, 6, 21]) == 2 * Bits(m) + 2
  {
    var ls, ids := TwoCounter.Latched(m), [3, 5, 6, 21];
    CounterReaches(m);
    CounterBits(m);
    hide TwoCounter.Latched, InCone, IsBit, Width;
    assert ids[1..] == [5, 6, 21] && ids[1..][1..] == [6, 21] && [6, 21][1..] == [21] && [21][1..] == [];
    assert TotalWidth(ls, [21]) == Width(ls, 21) && TotalWidth(ls, [6, 21]) == Width(ls, 6) + Width(ls, 21);
  }

  /** A modulus of 2^w takes counters of w bits. */
  lemma BitsOfPower(w: nat)
    requires w >= 1
    ensures Bits(Pow2(w)) == w
  {
    var n := Pow2(w) - 1;
    BitLengthFits(n);
    assert BitLength(n) >= 1 && Bits(Pow2(w)) == BitLength(n);
    PowerBetween(w, BitLength(n));
  }

  lemma PowerBetween(w: nat, l: nat)
    requires w >= 1 && l >= 1 && Pow2(l - 1) <= Pow2(w) - 1 < Pow2(l)
    ensures l == w
  {
    assert Pow2(w) == 2 * Pow2(w - 1);
    hide Pow2;
    if l < w {
      Pow2Monotone(l, w - 1);
    } else if l > w {
      Pow2Monotone(w, l - 1);
    }
  }

  /** So 2w + 2 for the shape of the frontier table, whose modulus is 2^w. */
  lemma CounterShape(w: nat)
    requires w >= 1
    ensures TotalWidth(TwoCounter.Latched(Pow2(w)), [3, 5, 6, 21]) == 2 * w + 2
  {
    hide TwoCounter.Latched, TotalWidth;
    CounterCone(Pow2(w));
    BitsOfPower(w);
  }

  // ---- the raster -------------------------------------------------------------------------------------------------

  lemma RasterFacts(v: nat)
    requires v >= 1
    ensures var ls := Raster.Listing(v);
            && |ls| == 22 && At(ls, 5, State(3, "vcount")) && At(ls, 22, Next(3, 5, 21))
               && At(ls, 21, Ite(3, 12, 20, 5))
            && At(ls, 12, Bin(Eq, 1, 4, 10)) && Width(ls, 4) == 10 && Width(ls, 5) == Bits(v)
            && (forall id :: IsBit(ls, id) <==> id in [4, 5])
  {
    var ls := Raster.Listing(v);
    Raster.RasterOk(v);
    Raster.Widths(ls, v);
    forall id ensures IsBit(ls, id) <==> id in [4, 5] {
      if 1 <= id <= 11 {
        RasterHeadBits(ls, v, id);
      } else if 12 <= id <= 22 {
        RasterTailBits(ls, id);
      }
    }
    hide Raster.Head, WellFormed, Raster.Listing, Bits;
  }

  lemma RasterHeadBits(ls: Listing, v: nat, id: int)
    requires v >= 1 && Raster.Head(ls, v) && 1 <= id <= 11
    ensures IsBit(ls, id) <==> id in [4, 5]
  {
    hide Bits;
  }

  lemma RasterTailBits(ls: Listing, id: int)
    requires Raster.Tail(ls) && 12 <= id <= 22
    ensures !IsBit(ls, id)
  {
  }

  /** 10 kept bits and those of the row counter; so 10 + w where the modulus is 2^w. */
  lemma RasterCone(v: nat)
    requires v >= 1
    ensures ConeIs(Raster.Listing(v), 5, [4, 5]) && TotalWidth(Raster.Listing(v), [4, 5]) == 10 + Bits(v)
    ensures forall w: nat :: w >= 1 && v == Pow2(w) ==> Bits(v) == w
  {
    var ls := Raster.Listing(v);
    RasterFacts(v);
    hide Raster.Listing, InCone, Reads, IsBit, Width, Bits, Pow2;
    ConeStart(ls, 5);
    StateReads(ls, 5, 22, 21);
    IteReads(ls, 21, 12, 20, 5);
    BinReads(ls, 12, 4, 10);
    ConeStep(ls, 5, 5, 21);
    ConeStep(ls, 5, 21, 12);
    ConeStep(ls, 5, 12, 4);
    assert [4, 5][1..] == [5] && [5][1..] == [];
    assert TotalWidth(ls, [5]) == Width(ls, 5);
    forall w: nat | w >= 1 && v == Pow2(w) ensures Bits(v) == w {
      BitsOfPower(w);
    }
  }

  // ---- the ceiling of the frontier table --------------------------------------------------------------------------

  /** The benchmarks go over the automatic ceiling at the sizes the frontier table brackets: the control shapes from 94
      and 62 bits on, the counters from 96, the raster from 183. */
  lemma CeilingExactly(w: nat, sh: Frontier.Shape, timeout: Listing, stuck: bool, pair: Listing)
    requires w >= 1 && TimeoutFsm.Benchmark(timeout, w, stuck) && PairCircuit.Pair(pair, w)
    ensures var ids := if stuck then [4, 5, 7, 12, 14] else [4, 5, 6, 7, 12, 14];
            sh.cone(w) == Some(TotalWidth(timeout, ids)) ==> (Frontier.OverCeiling(sh, w) <==> w >= 94)
    ensures sh.cone(w) == Some(TotalWidth(pair, [4, 5, 6, 7, 12, 14, 16, 18])) ==>
              (Frontier.OverCeiling(sh, w) <==> w >= 62)
    ensures sh.cone(w) == Some(TotalWidth(TwoCounter.Latched(Pow2(w)), [3, 5, 6, 21])) ==>
              (Frontier.OverCeiling(sh, w) <==> w >= 96)
    ensures sh.cone(w) == Some(TotalWidth(Raster.Listing(Pow2(w)), [4, 5])) ==>
              (Frontier.OverCeiling(sh, w) <==> w >= 183)
  {
    hide TotalWidth, ConeIs, TwoCounter.Latched, Raster.Listing, TimeoutFsm.Benchmark, PairCircuit.Pair, Pow2, Bits;
    TimeoutCone(timeout, w, stuck);
    PairCone(pair, w);
    CounterShape(w);
    RasterCone(Pow2(w));
  }
}
