/**
 The emission of the requester/granter pair (`gen_exact_fsm_pair` of `scripts/profile_cases.py`) and
 the proof that the emitted listing, read with BTOR2's meaning, is the documented pair of machines.
 */
module PairCircuit {
  import opened Arith
  import opened Btor
  import opened FsmParts

  // ---- the listing, part by part -----------------------------------------------------------------

  /** The sorts, the inputs and the held, free-initialised limit. */
  predicate Header(ls: Listing, w: nat) {
    && w >= 1
    && At(ls, 1, Sort(1)) && At(ls, 2, Sort(3)) && At(ls, 3, Sort(w))
    && At(ls, 4, Input(1, "start")) && At(ls, 5, Input(1, "done")) && At(ls, 6, Input(1, "clr"))
    && At(ls, 7, State(3, "limit")) && At(ls, 8, Next(3, 7, 7))
  }

  /** Both machines' registers, declared before either next state. */
  predicate Registers(ls: Listing) {
    && At(ls, 9, Const(2, Zero)) && At(ls, 10, Const(3, Zero)) && At(ls, 11, Const(3, One))
    && At(ls, 12, State(2, "req_st")) && At(ls, 13, Init(2, 12, 9))
    && At(ls, 14, State(2, "gnt_st")) && At(ls, 15, Init(2, 14, 9))
    && At(ls, 16, State(3, "req_tmr")) && At(ls, 17, Init(3, 16, 10))
    && At(ls, 18, State(3, "gnt_tmr")) && At(ls, 19, Init(3, 18, 10))
  }

  predicate Decoders(ls: Listing) {
    Codes(ls, 19, 2) && Compares(ls, 25, 1, 12, 19) && Compares(ls, 31, 1, 14, 19)
  }

  predicate Signals(ls: Listing) {
    && At(ls, 38, Bin(Or, 1, 27, 28)) && At(ls, 39, Bin(Or, 1, 34, 35))
    && At(ls, 40, Not(1, 38)) && At(ls, 41, Not(1, 39))
    && At(ls, 42, Bin(Eq, 1, 16, 7)) && At(ls, 43, Bin(Eq, 1, 18, 7))
  }

  const REQ_ARMS := [48, 22, 46, 47, 20, 44]
  const GNT_ARMS := [59, 22, 23, 58, 20, 56]

  predicate ReqArms(ls: Listing) {
    && At(ls, 44, Ite(2, 6, 20, 25))
    && At(ls, 45, Ite(2, 42, 25, 22)) && At(ls, 46, Ite(2, 39, 23, 45))
    && At(ls, 47, Ite(2, 5, 24, 23)) && At(ls, 48, Ite(2, 4, 21, 20))
  }

  predicate GntArms(ls: Listing) {
    && At(ls, 56, Ite(2, 6, 20, 25))
    && At(ls, 57, Ite(2, 43, 25, 23)) && At(ls, 58, Ite(2, 40, 24, 57))
    && At(ls, 59, Ite(2, 38, 21, 20))
  }

  predicate Selections(ls: Listing) {
    && Selects(ls, 48, 2, 25, REQ_ARMS, 20) && At(ls, 55, Next(2, 12, 54))
    && Selects(ls, 59, 2, 31, GNT_ARMS, 20) && At(ls, 66, Next(2, 14, 65))
  }

  predicate Timers(ls: Listing) {
    && At(ls, 67, Bin(And, 1, 28, 41)) && At(ls, 68, Bin(Add, 3, 16, 11))
    && At(ls, 69, Ite(3, 67, 68, 10)) && At(ls, 70, Next(3, 16, 69))
    && At(ls, 71, Bin(And, 1, 35, 38)) && At(ls, 72, Bin(Add, 3, 18, 11))
    && At(ls, 73, Ite(3, 71, 72, 10)) && At(ls, 74, Next(3, 18, 73))
  }

  predicate Pair(ls: Listing, w: nat) {
    && |ls| == 74 && Header(ls, w) && Registers(ls) && Decoders(ls) && Signals(ls)
    && ReqArms(ls) && GntArms(ls) && Selections(ls) && Timers(ls)
  }

  // ---- emission ----------------------------------------------------------------------------------

  method EmitHeader(b: Emitter, w: nat)
    requires b.lines == [] && w >= 1
    modifies b
    ensures |b.lines| == 8 && Header(b.lines, w)
  {
    var s1 := b.N(Sort(1));
    var s3 := b.N(Sort(3));
    var sw := b.N(Sort(w));
    var _ := b.N(Input(s1, "start"));
    var _ := b.N(Input(s1, "done"));
    var _ := b.N(Input(s1, "clr"));
    var limit := b.N(State(sw, "limit"));
    var _ := b.N(Next(sw, limit, limit));
  }

  method EmitRegisters(b: Emitter)
    requires |b.lines| == 8
    modifies b
    ensures old(b.lines) <= b.lines && |b.lines| == 19 && Registers(b.lines)
  {
    var zero3 := b.N(Const(2, Zero));
    var zerow := b.N(Const(3, Zero));
    var _ := b.N(Const(3, One));
    var str := b.N(State(2, "req_st"));
    var _ := b.N(Init(2, str, zero3));
    var stg := b.N(State(2, "gnt_st"));
    var _ := b.N(Init(2, stg, zero3));
    EmitTimerRegisters(b);
  }

  method EmitTimerRegisters(b: Emitter)
    requires |b.lines| == 15
    modifies b
    ensures old(b.lines) <= b.lines && |b.lines| == 19
    ensures At(b.lines, 16, State(3, "req_tmr")) && At(b.lines, 17, Init(3, 16, 10))
    ensures At(b.lines, 18, State(3, "gnt_tmr")) && At(b.lines, 19, Init(3, 18, 10))
  {
    var tmrr := b.N(State(3, "req_tmr"));
    var _ := b.N(Init(3, tmrr, 10));
    var tmrg := b.N(State(3, "gnt_tmr"));
    var _ := b.N(Init(3, tmrg, 10));
  }

  method EmitDecoders(b: Emitter)
    requires |b.lines| == 19
    modifies b
    ensures old(b.lines) <= b.lines && |b.lines| == 37 && Decoders(b.lines)
  {
    EmitCodes(b, 2);
    EmitCompares(b, 1, 12, 19);
    EmitCompares(b, 1, 14, 19);
  }

  method EmitSignals(b: Emitter)
    requires |b.lines| == 37
    modifies b
    ensures old(b.lines) <= b.lines && |b.lines| == 43 && Signals(b.lines)
  {
    var req := b.N(Bin(Or, 1, 27, 28));
    var gnt := b.N(Bin(Or, 1, 34, 35));
    var _ := b.N(Not(1, req));
    var _ := b.N(Not(1, gnt));
    var _ := b.N(Bin(Eq, 1, 16, 7));
    var _ := b.N(Bin(Eq, 1, 18, 7));
  }

  method EmitRequester(b: Emitter)
    requires |b.lines| == 43
    modifies b
    ensures old(b.lines) <= b.lines && |b.lines| == 55 && ReqArms(b.lines)
    ensures Selects(b.lines, 48, 2, 25, REQ_ARMS, 20) && At(b.lines, 55, Next(2, 12, 54))
  {
    var rErr := b.N(Ite(2, 6, 20, 25));
    var timeout := b.N(Ite(2, 42, 25, 22));
    var rWait := b.N(Ite(2, 39, 23, timeout));
    var rUse := b.N(Ite(2, 5, 24, 23));
    var rIdle := b.N(Ite(2, 4, 21, 20));
    var nr := EmitSelects(b, 2, 25, [rIdle, 22, rWait, rUse, 20, rErr], 20);
    var _ := b.N(Next(2, 12, nr));
  }

  method EmitGranter(b: Emitter)
    requires |b.lines| == 55
    modifies b
    ensures old(b.lines) <= b.lines && |b.lines| == 66 && GntArms(b.lines)
    ensures Selects(b.lines, 59, 2, 31, GNT_ARMS, 20) && At(b.lines, 66, Next(2, 14, 65))
  {
    var gErr := b.N(Ite(2, 6, 20, 25));
    var timeout := b.N(Ite(2, 43, 25, 23));
    var gBusy := b.N(Ite(2, 40, 24, timeout));
    var gIdle := b.N(Ite(2, 38, 21, 20));
    var ng := EmitSelects(b, 2, 31, [gIdle, 22, 23, gBusy, 20, gErr], 20);
    var _ := b.N(Next(2, 14, ng));
  }

  method EmitTimers(b: Emitter)
    requires |b.lines| == 66
    modifies b
    ensures old(b.lines) <= b.lines && |b.lines| == 74 && Timers(b.lines)
  {
    var rCnt := b.N(Bin(And, 1, 28, 41));
    var rInc := b.N(Bin(Add, 3, 16, 11));
    var rNext := b.N(Ite(3, rCnt, rInc, 10));
    var _ := b.N(Next(3, 16, rNext));
    var gCnt := b.N(Bin(And, 1, 35, 38));
    var gInc := b.N(Bin(Add, 3, 18, 11));
    var gNext := b.N(Ite(3, gCnt, gInc, 10));
    var _ := b.N(Next(3, 18, gNext));
  }

  /** `gen_exact_fsm_pair`. */
  method Generate(w: nat) returns (ls: Listing)
    requires w >= 1
    ensures Pair(ls, w) && WellFormed(ls)
  {
    var b := new Emitter();
    EmitHeader(b, w);
    ghost var l1 := b.lines;
    EmitRegisters(b);
    ghost var l2 := b.lines;
    EmitDecoders(b);
    ghost var l3 := b.lines;
    EmitSignals(b);
    ghost var l4 := b.lines;
    EmitRequester(b);
    ghost var l5 := b.lines;
    EmitGranter(b);
    ghost var l6 := b.lines;
    EmitTimers(b);
    ls := b.lines;
    FrontKept(l1, l2, l3, l4, ls, w);
    BackKept(l5, l6, ls);
    PairOk(ls, w);
  }

  lemma FrontKept(l1: Listing, l2: Listing, l3: Listing, l4: Listing, ls: Listing, w: nat)
    requires l1 <= ls && l2 <= ls && l3 <= ls && l4 <= ls
    requires Header(l1, w) && Registers(l2) && Decoders(l3) && Signals(l4)
    ensures Header(ls, w) && Registers(ls) && Decoders(ls) && Signals(ls)
  {
  }

  lemma BackKept(l5: Listing, l6: Listing, ls: Listing)
    requires l5 <= ls && l6 <= ls && ReqArms(l5) && GntArms(l6)
    requires Selects(l5, 48, 2, 25, REQ_ARMS, 20) && At(l5, 55, Next(2, 12, 54))
    requires Selects(l6, 59, 2, 31, GNT_ARMS, 20) && At(l6, 66, Next(2, 14, 65))
    ensures ReqArms(ls) && GntArms(ls) && Selections(ls)
  {
  }

  // ---- well-formedness ---------------------------------------------------------------------------

  predicate Sorts(ls: Listing, w: nat) {
    w >= 1 && SortWidth(ls, 1) == 1 && SortWidth(ls, 2) == 3 && SortWidth(ls, 3) == w
  }

  predicate PortWidths(ls: Listing, w: nat) {
    && Width(ls, 4) == 1 && Width(ls, 5) == 1 && Width(ls, 6) == 1 && Width(ls, 7) == w
    && Width(ls, 9) == 3 && Width(ls, 10) == w && Width(ls, 11) == w
    && Width(ls, 12) == 3 && Width(ls, 14) == 3 && Width(ls, 16) == w && Width(ls, 18) == w
  }

  predicate CodeWidths(ls: Listing) {
    && (forall v :: 20 <= v <= 25 ==> Width(ls, v) == 3)
    && (forall v :: 26 <= v <= 37 ==> Width(ls, v) == 1)
  }

  predicate SignalWidths(ls: Listing) {
    forall v :: 38 <= v <= 43 ==> Width(ls, v) == 1
  }

  lemma FrontWidths(ls: Listing, w: nat)
    requires Header(ls, w) && Registers(ls) && Decoders(ls)
    ensures Sorts(ls, w) && PortWidths(ls, w) && CodeWidths(ls)
    ensures Decoder(ls, 1, 2, 12, 19, 25) && Decoder(ls, 1, 2, 14, 19, 31)
  {
    DecoderWidths(ls, 1, 2, 12, 19, 25);
    DecoderWidths(ls, 1, 2, 14, 19, 31);
  }

  lemma ArmWidths(ls: Listing, w: nat)
    requires Sorts(ls, w) && CodeWidths(ls) && ReqArms(ls) && GntArms(ls)
    ensures forall v :: 0 <= v < 6 ==> Operand(ls, 48, REQ_ARMS[v], 3)
    ensures forall v :: 0 <= v < 6 ==> Operand(ls, 59, GNT_ARMS[v], 3)
    ensures Width(ls, 45) == 3 && Width(ls, 57) == 3
  {
  }

  lemma HeaderOk(ls: Listing, w: nat, i: nat)
    requires Header(ls, w) && i < 8
    ensures i < |ls| && LineOk(ls, i) && (ls[i].Next? ==> i == 7)
  {
  }

  lemma RegistersOk(ls: Listing, w: nat, i: nat)
    requires Sorts(ls, w) && PortWidths(ls, w) && Registers(ls) && 8 <= i < 19
    ensures i < |ls| && LineOk(ls, i) && !ls[i].Next?
  {
  }

  lemma FrontOk(ls: Listing, w: nat, i: nat)
    requires Header(ls, w) && Registers(ls) && Decoders(ls) && i < 37
    ensures i < |ls| && LineOk(ls, i) && (ls[i].Next? ==> i == 7)
  {
    hide Header, Registers, Decoders, LineOk, PortWidths, CodeWidths;
    FrontWidths(ls, w);
    if i >= 31 {
      DecoderOk(ls, 1, 2, 14, 19, 31, i);
    } else if i >= 19 {
      DecoderOk(ls, 1, 2, 12, 19, 25, i);
    } else if i >= 8 {
      RegistersOk(ls, w, i);
    } else {
      HeaderOk(ls, w, i);
    }
  }

  lemma SignalsOk(ls: Listing, w: nat, i: nat)
    requires Sorts(ls, w) && PortWidths(ls, w) && CodeWidths(ls) && Signals(ls) && 37 <= i < 43
    ensures i < |ls| && LineOk(ls, i) && !ls[i].Next? && SignalWidths(ls)
  {
    assert Width(ls, 27) == 1 && Width(ls, 28) == 1 && Width(ls, 34) == 1 && Width(ls, 35) == 1;
  }

  lemma ReqArmsOk(ls: Listing, w: nat, i: nat)
    requires Sorts(ls, w) && PortWidths(ls, w) && CodeWidths(ls) && SignalWidths(ls) && ReqArms(ls) && 43 <= i < 48
    ensures i < |ls| && LineOk(ls, i) && !ls[i].Next?
  {
    assert Width(ls, 20) == 3 && Width(ls, 21) == 3 && Width(ls, 22) == 3 && Width(ls, 23) == 3
        && Width(ls, 24) == 3 && Width(ls, 25) == 3 && Width(ls, 45) == 3;
    assert Width(ls, 39) == 1 && Width(ls, 42) == 1;
  }

  lemma GntArmsOk(ls: Listing, w: nat, i: nat)
    requires Sorts(ls, w) && PortWidths(ls, w) && CodeWidths(ls) && SignalWidths(ls) && GntArms(ls) && 55 <= i < 59
    ensures i < |ls| && LineOk(ls, i) && !ls[i].Next?
  {
    assert Width(ls, 20) == 3 && Width(ls, 21) == 3 && Width(ls, 23) == 3
        && Width(ls, 24) == 3 && Width(ls, 25) == 3 && Width(ls, 57) == 3;
    assert Width(ls, 38) == 1 && Width(ls, 40) == 1 && Width(ls, 43) == 1;
  }

  lemma SelectionOk(ls: Listing, w: nat, i: nat)
    requires Sorts(ls, w) && PortWidths(ls, w) && CodeWidths(ls) && ReqArms(ls) && GntArms(ls) && Selections(ls)
    requires 48 <= i < 54 || 59 <= i < 65
    ensures i < |ls| && LineOk(ls, i) && !ls[i].Next? && Width(ls, i + 1) == 3
  {
    ArmWidths(ls, w);
    assert Width(ls, 20) == 3;
    if i < 54 {
      SelectsOk(ls, 48, 2, 25, REQ_ARMS, 20, i);
    } else {
      SelectsOk(ls, 59, 2, 31, GNT_ARMS, 20, i);
    }
  }

  /** The next-state lines, and the only ones before each of them. */
  lemma StateNextsOk(ls: Listing, w: nat)
    requires |ls| == 74 && Sorts(ls, w) && PortWidths(ls, w) && Registers(ls) && At(ls, 8, Next(3, 7, 7))
    requires At(ls, 55, Next(2, 12, 54)) && At(ls, 66, Next(2, 14, 65)) && Width(ls, 54) == 3 && Width(ls, 65) == 3
    requires forall j :: 0 <= j < 66 && ls[j].Next? ==> j == 7 || j == 54 || j == 65
    ensures LineOk(ls, 54) && LineOk(ls, 65)
  {
    assert NoNext(ls, 54, 12) && NoNext(ls, 65, 14);
  }

  lemma TimerWidths(ls: Listing, w: nat)
    requires Sorts(ls, w) && Timers(ls)
    ensures Width(ls, 67) == 1 && Width(ls, 68) == w && Width(ls, 69) == w
    ensures Width(ls, 71) == 1 && Width(ls, 72) == w && Width(ls, 73) == w
  {
  }

  lemma TimersOk(ls: Listing, w: nat, i: nat)
    requires |ls| == 74 && Sorts(ls, w) && PortWidths(ls, w) && CodeWidths(ls) && SignalWidths(ls) && Timers(ls)
    requires ls[15].State? && ls[17].State?
    requires forall j :: 0 <= j < 66 && ls[j].Next? ==> ls[j].state < 16
    requires 66 <= i < 74
    ensures LineOk(ls, i)
  {
    TimerWidths(ls, w);
    assert Width(ls, 28) == 1 && Width(ls, 35) == 1 && Width(ls, 38) == 1 && Width(ls, 41) == 1;
    assert NoNext(ls, 69, 16) && NoNext(ls, 73, 18);
  }

  lemma MostOk(ls: Listing, w: nat, i: nat)
    requires Pair(ls, w) && i < 66 && i != 54 && i != 65
    ensures LineOk(ls, i) && (ls[i].Next? ==> i == 7)
  {
    hide Header, Registers, Decoders, Signals, ReqArms, GntArms, Selections, Timers;
    if i < 37 {
      FrontOk(ls, w, i);
    } else {
      FrontWidths(ls, w);
      SignalsOk(ls, w, 37);
      if i < 43 {
        SignalsOk(ls, w, i);
      } else if 43 <= i < 48 {
        ReqArmsOk(ls, w, i);
      } else if 55 <= i < 59 {
        GntArmsOk(ls, w, i);
      } else {
        SelectionOk(ls, w, i);
      }
    }
  }

  lemma SelectionNexts(ls: Listing)
    requires Selections(ls)
    ensures At(ls, 55, Next(2, 12, 54)) && At(ls, 66, Next(2, 14, 65))
  {
  }

  lemma TimerStates(ls: Listing)
    requires Registers(ls)
    ensures |ls| >= 18 && ls[15].State? && ls[17].State?
  {
  }

  /** Every operand of the emitted pair names an earlier line of the sort it needs. */
  lemma PairOk(ls: Listing, w: nat)
    requires Pair(ls, w)
    ensures WellFormed(ls)
  {
    hide LineOk, Registers, Decoders, Signals, ReqArms, GntArms, Selections, Timers;
    forall i | 0 <= i < 66 && i != 54 && i != 65 ensures LineOk(ls, i) && (ls[i].Next? ==> i == 7) {
      MostOk(ls, w, i);
    }
    FrontWidths(ls, w);
    SignalsOk(ls, w, 37);
    SelectionOk(ls, w, 53);
    SelectionOk(ls, w, 64);
    assert At(ls, 55, Next(2, 12, 54)) && At(ls, 66, Next(2, 14, 65)) by { SelectionNexts(ls); }
    StateNextsOk(ls, w);
    assert ls[15].State? && ls[17].State? by { TimerStates(ls); }
    forall i | 66 <= i < 74 ensures LineOk(ls, i) {
      TimersOk(ls, w, i);
    }
  }

  // ---- meaning -------------------------------------------------------------------------------------

  /** The requester: IDLE 0, REQ 1, WAIT 2, USE 3, REL 4, ERR 5. */
  function NextReq(r: nat, granted: bool, expired: bool, start: bool, done: bool, clr: bool): nat {
    if r == 0 then (if start then 1 else 0)
    else if r == 1 then 2
    else if r == 2 then (if granted then 3 else if expired then 5 else 2)
    else if r == 3 then (if done then 4 else 3)
    else if r == 4 then 0
    else if r == 5 then (if clr then 0 else 5)
    else 0
  }

  /** The granter: IDLE 0, ARB 1, GRANT 2, BUSY 3, RELEASE 4, ERR 5. */
  function NextGnt(g: nat, requested: bool, expired: bool, clr: bool): nat {
    if g == 0 then (if requested then 1 else 0)
    else if g == 1 then 2
    else if g == 2 then 3
    else if g == 3 then (if !requested then 4 else if expired then 5 else 3)
    else if g == 4 then 0
    else if g == 5 then (if clr then 0 else 5)
    else 0
  }

  lemma LeafVals(ls: Listing, env: Env, w: nat)
    requires WellFormed(ls) && Valuation(ls, env) && Header(ls, w) && Registers(ls)
    ensures Val(ls, env, 4) == env(4) && Val(ls, env, 5) == env(5) && Val(ls, env, 6) == env(6)
    ensures Val(ls, env, 7) == env(7) && Val(ls, env, 10) == 0 && Val(ls, env, 11) == 1
    ensures Val(ls, env, 12) == env(12) < 8 && Val(ls, env, 14) == env(14) < 8
    ensures Val(ls, env, 16) == env(16) < Pow2(w) && Val(ls, env, 18) == env(18) < Pow2(w) && env(7) < Pow2(w)
  {
    hide Val, LineOk, WellFormed;
    LeafVal(ls, env, 4);
    LeafVal(ls, env, 5);
    LeafVal(ls, env, 6);
    LeafVal(ls, env, 7);
    LeafVal(ls, env, 10);
    LeafVal(ls, env, 11);
    LeafVal(ls, env, 12);
    LeafVal(ls, env, 14);
    LeafVal(ls, env, 16);
    LeafVal(ls, env, 18);
    assert Pow2(3) == 8;
    assert ls[11].State? && ls[13].State? && ls[15].State? && ls[17].State? && ls[6].State?;
  }

  /** The codes and comparisons, by their meaning. */
  ghost predicate Decoded(ls: Listing, env: Env) {
    && (forall v :: 20 <= v <= 25 ==> Val(ls, env, v) == v - 20)
    && (forall v :: 26 <= v <= 31 ==> Val(ls, env, v) == if Val(ls, env, 12) == v - 26 then 1 else 0)
    && (forall v :: 32 <= v <= 37 ==> Val(ls, env, v) == if Val(ls, env, 14) == v - 32 then 1 else 0)
  }

  lemma DecodedVals(ls: Listing, env: Env, w: nat)
    requires WellFormed(ls) && Header(ls, w) && Registers(ls) && Decoders(ls)
    ensures Decoded(ls, env)
  {
    hide Val, Header, Registers, Decoders;
    FrontWidths(ls, w);
    forall v | 20 <= v <= 25 ensures Val(ls, env, v) == v - 20 {
      CompareVal(ls, env, 1, 2, 12, 19, 25, v - 20);
    }
    forall v | 26 <= v <= 31 ensures Val(ls, env, v) == if Val(ls, env, 12) == v - 26 then 1 else 0 {
      CompareVal(ls, env, 1, 2, 12, 19, 25, v - 26);
    }
    forall v | 32 <= v <= 37 ensures Val(ls, env, v) == if Val(ls, env, 14) == v - 32 then 1 else 0 {
      CompareVal(ls, env, 1, 2, 14, 19, 31, v - 32);
    }
  }

  /** Request and grant are levels of the current states; the limits are equality tests. */
  ghost predicate SignalMeaning(ls: Listing, env: Env) {
    && Val(ls, env, 38) == (if env(12) == 1 || env(12) == 2 then 1 else 0)
    && Val(ls, env, 39) == (if env(14) == 2 || env(14) == 3 then 1 else 0)
    && Val(ls, env, 40) == 1 - Val(ls, env, 38) && Val(ls, env, 41) == 1 - Val(ls, env, 39)
    && Val(ls, env, 42) == (if env(16) == env(7) then 1 else 0)
    && Val(ls, env, 43) == (if env(18) == env(7) then 1 else 0)
  }

  lemma SignalVals(ls: Listing, env: Env, w: nat)
    requires WellFormed(ls) && Valuation(ls, env) && Header(ls, w) && Registers(ls) && Decoders(ls) && Signals(ls)
    ensures SignalMeaning(ls, env)
  {
    hide Val, LineOk, WellFormed, Valuation, Header, Registers, Decoders, Signals, Decoded, Pow2;
    LeafVals(ls, env, w);
    DecodedVals(ls, env, w);
    FrontWidths(ls, w);
    OrVals(ls, env);
    NotVals(ls, env);
    EqVals(ls, env);
  }

  lemma OrVals(ls: Listing, env: Env)
    requires WellFormed(ls) && Signals(ls) && SortWidth(ls, 1) == 1 && Decoded(ls, env)
    requires Val(ls, env, 12) == env(12) && Val(ls, env, 14) == env(14)
    ensures Val(ls, env, 38) == (if env(12) == 1 || env(12) == 2 then 1 else 0)
    ensures Val(ls, env, 39) == (if env(14) == 2 || env(14) == 3 then 1 else 0)
  {
    assert Width(ls, 38) == 1 && Width(ls, 39) == 1;
    hide Val, LineOk, WellFormed, Width, SortWidth, BitOr, BitAnd;
    BinVal(ls, env, 38);
    BinVal(ls, env, 39);
    OneBit(Val(ls, env, 27), Val(ls, env, 28));
    OneBit(Val(ls, env, 34), Val(ls, env, 35));
  }

  lemma NotVals(ls: Listing, env: Env)
    requires WellFormed(ls) && Signals(ls) && SortWidth(ls, 1) == 1 && Val(ls, env, 38) < 2 && Val(ls, env, 39) < 2
    ensures Val(ls, env, 40) == 1 - Val(ls, env, 38) && Val(ls, env, 41) == 1 - Val(ls, env, 39)
  {
    NotLines(ls);
    hide *;
    NotVal(ls, env, 40);
    NotVal(ls, env, 41);
    Flipped(Val(ls, env, 38));
    Flipped(Val(ls, env, 39));
  }

  lemma NotLines(ls: Listing)
    requires Signals(ls) && SortWidth(ls, 1) == 1
    ensures |ls| >= 41 && ls[39] == Not(1, 38) && ls[40] == Not(1, 39) && Width(ls, 40) == 1 && Width(ls, 41) == 1
  {
  }

  lemma Flipped(x: nat)
    requires x < 2
    ensures Complement(1, x) == 1 - x
  {
    assert Pow2(1) == 2;
  }

  lemma EqVals(ls: Listing, env: Env)
    requires WellFormed(ls) && Signals(ls)
    requires Val(ls, env, 7) == env(7) && Val(ls, env, 16) == env(16) && Val(ls, env, 18) == env(18)
    ensures Val(ls, env, 42) == (if env(16) == env(7) then 1 else 0)
    ensures Val(ls, env, 43) == (if env(18) == env(7) then 1 else 0)
  {
    hide Val, LineOk, WellFormed, Width;
    BinVal(ls, env, 42);
    BinVal(ls, env, 43);
  }

  lemma ReqArmVals(ls: Listing, env: Env, w: nat, v: nat)
    requires WellFormed(ls) && ReqArms(ls) && Decoded(ls, env) && v < 6
    ensures Val(ls, env, REQ_ARMS[v]) ==
            NextReq(v, Val(ls, env, 39) != 0, Val(ls, env, 42) != 0, Val(ls, env, 4) != 0, Val(ls, env, 5) != 0,
                    Val(ls, env, 6) != 0)
  {
    hide Val, LineOk, WellFormed;
    IteVal(ls, env, 44);
    IteVal(ls, env, 45);
    IteVal(ls, env, 46);
    IteVal(ls, env, 47);
    IteVal(ls, env, 48);
  }

  lemma GntArmVals(ls: Listing, env: Env, w: nat, v: nat)
    requires WellFormed(ls) && GntArms(ls) && Decoded(ls, env) && v < 6
    requires Val(ls, env, 40) == 1 - Val(ls, env, 38)
    ensures Val(ls, env, GNT_ARMS[v]) ==
            NextGnt(v, Val(ls, env, 38) != 0, Val(ls, env, 43) != 0, Val(ls, env, 6) != 0)
  {
    hide Val, LineOk, WellFormed;
    IteVal(ls, env, 56);
    IteVal(ls, env, 57);
    IteVal(ls, env, 58);
    IteVal(ls, env, 59);
  }

  /** The requester's next-state line is its table, for every code, input and width. */
  lemma RequesterVal(ls: Listing, env: Env, w: nat)
    requires WellFormed(ls) && Valuation(ls, env) && Pair(ls, w)
    ensures Val(ls, env, 54) ==
            NextReq(env(12), env(14) == 2 || env(14) == 3, env(16) == env(7), env(4) != 0, env(5) != 0, env(6) != 0)
  {
    hide Val, LineOk, WellFormed, Valuation, Header, Registers, Decoders, Signals, ReqArms, GntArms, Timers, Selects;
    LeafVals(ls, env, w);
    DecodedVals(ls, env, w);
    SignalVals(ls, env, w);
    FrontWidths(ls, w);
    ArmWidths(ls, w);
    forall v | 0 <= v < 6
      ensures Val(ls, env, REQ_ARMS[v]) ==
              NextReq(v, Val(ls, env, 39) != 0, Val(ls, env, 42) != 0, Val(ls, env, 4) != 0, Val(ls, env, 5) != 0,
                      Val(ls, env, 6) != 0)
    {
      ReqArmVals(ls, env, w, v);
    }
    assert Width(ls, 20) == 3 && Val(ls, env, 20) == 0;
    SelectVal(ls, env, 1, 2, 12, 19, 25, 48, REQ_ARMS, 20, 0);
  }

  lemma GranterVal(ls: Listing, env: Env, w: nat)
    requires WellFormed(ls) && Valuation(ls, env) && Pair(ls, w)
    ensures Val(ls, env, 65) == NextGnt(env(14), env(12) == 1 || env(12) == 2, env(18) == env(7), env(6) != 0)
  {
    hide Val, LineOk, WellFormed, Valuation, Header, Registers, Decoders, Signals, ReqArms, GntArms, Timers, Selects;
    LeafVals(ls, env, w);
    DecodedVals(ls, env, w);
    SignalVals(ls, env, w);
    FrontWidths(ls, w);
    ArmWidths(ls, w);
    forall v | 0 <= v < 6
      ensures Val(ls, env, GNT_ARMS[v]) ==
              NextGnt(v, Val(ls, env, 38) != 0, Val(ls, env, 43) != 0, Val(ls, env, 6) != 0)
    {
      GntArmVals(ls, env, w, v);
    }
    assert Width(ls, 20) == 3 && Val(ls, env, 20) == 0;
    SelectVal(ls, env, 1, 2, 14, 19, 31, 59, GNT_ARMS, 20, 0);
  }

  /** Each timer counts, modulo its width, while its machine waits on the other; else it is 0. */
  lemma TimerVals(ls: Listing, env: Env, w: nat)
    requires WellFormed(ls) && Valuation(ls, env) && Pair(ls, w)
    ensures Val(ls, env, 69) == if env(12) == 2 && !(env(14) == 2 || env(14) == 3) then Inc(w, env(16)) else 0
    ensures Val(ls, env, 73) == if env(14) == 3 && (env(12) == 1 || env(12) == 2) then Inc(w, env(18)) else 0
  {
    hide Val, LineOk, WellFormed, Valuation, Header, Registers, Decoders, Signals, ReqArms, GntArms, Selections, Timers;
    LeafVals(ls, env, w);
    DecodedVals(ls, env, w);
    SignalVals(ls, env, w);
    FrontWidths(ls, w);
    hide Pow2;
    TimerBits(ls, env);
    TimerSums(ls, env, w);
    TimerLines(ls);
    IteVal(ls, env, 69);
    IteVal(ls, env, 73);
  }

  lemma TimerLines(ls: Listing)
    requires Timers(ls)
    ensures At(ls, 69, Ite(3, 67, 68, 10)) && At(ls, 73, Ite(3, 71, 72, 10))
  {
  }

  lemma TimerBits(ls: Listing, env: Env)
    requires WellFormed(ls) && Timers(ls) && SortWidth(ls, 1) == 1 && Decoded(ls, env) && SignalMeaning(ls, env)
    requires Val(ls, env, 12) == env(12) && Val(ls, env, 14) == env(14)
    ensures Val(ls, env, 67) != 0 <==> env(12) == 2 && !(env(14) == 2 || env(14) == 3)
    ensures Val(ls, env, 71) != 0 <==> env(14) == 3 && (env(12) == 1 || env(12) == 2)
  {
    assert Width(ls, 67) == 1 && Width(ls, 71) == 1;
    hide Val, LineOk, WellFormed, Width, SortWidth, BitOr, BitAnd;
    BinVal(ls, env, 67);
    BinVal(ls, env, 71);
    OneBit(Val(ls, env, 28), Val(ls, env, 41));
    OneBit(Val(ls, env, 35), Val(ls, env, 38));
  }

  lemma TimerSums(ls: Listing, env: Env, w: nat)
    requires WellFormed(ls) && Timers(ls) && SortWidth(ls, 3) == w && env(16) < Pow2(w) && env(18) < Pow2(w)
    requires Val(ls, env, 16) == env(16) && Val(ls, env, 18) == env(18) && Val(ls, env, 11) == 1
    ensures Val(ls, env, 68) == Inc(w, env(16)) && Val(ls, env, 72) == Inc(w, env(18))
  {
    assert Width(ls, 68) == w && Width(ls, 72) == w;
    hide Val, LineOk, WellFormed, Width, SortWidth, Pow2;
    BinVal(ls, env, 68);
    BinVal(ls, env, 72);
    IncIsModular(w, env(16));
    IncIsModular(w, env(18));
  }
}
