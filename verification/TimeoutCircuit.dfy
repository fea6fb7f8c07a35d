/**
 The emission of the timeout circuit (`_fsm_timeout_circuit` and `gen_exact_fsm_timeout` of
 `scripts/profile_cases.py`) and the proof that the emitted listing, read with BTOR2's meaning, is
 the documented six-state machine with its timer.
 */
module TimeoutCircuit {
  import opened Arith
  import opened Btor
  import opened FsmParts

  /** What the caller hands to the circuit: three sorts, three one-bit signals and the limit. */
  datatype Ports = Ports(s1: int, s3: int, sw: int, start: int, ack: int, clr: int, limit: int)

  // The layout of a circuit whose first line has index `base`.

  function St(base: nat): int { base + 4 }

  function Tmr(base: nat): int { base + 6 }

  function Code(base: nat, v: nat): int { base + 8 + v }

  function Is(base: nat, v: nat): int { base + 14 + v }

  /** The index of the first line after the optional ERROR arm. */
  function WaitBase(base: nat, stuck: bool): nat { if stuck then base + 21 else base + 22 }

  /** The index of the IDLE arm, after the optional ACTIVE arm. */
  function IdleBase(base: nat, stuck: bool, level: bool): nat {
    if level then WaitBase(base, stuck) + 3 else WaitBase(base, stuck) + 2
  }

  function ArmList(base: nat, stuck: bool, level: bool): seq<int> {
    var x, y := WaitBase(base, stuck), IdleBase(base, stuck, level);
    [y + 1, Code(base, 2), x + 2, if level then x + 3 else Code(base, 4), Code(base, 0),
     if stuck then Code(base, 5) else base + 22]
  }

  predicate Head(ls: Listing, base: nat, p: Ports, name: string) {
    && At(ls, base + 1, Const(p.s3, Zero)) && At(ls, base + 2, Const(p.sw, Zero)) && At(ls, base + 3, Const(p.sw, One))
    && At(ls, St(base), State(p.s3, name + "_st")) && At(ls, base + 5, Init(p.s3, St(base), base + 1))
    && At(ls, Tmr(base), State(p.sw, name + "_tmr")) && At(ls, base + 7, Init(p.sw, Tmr(base), base + 2))
    && Codes(ls, base + 7, p.s3) && Compares(ls, base + 13, p.s1, St(base), base + 7)
  }

  predicate ErrArm(ls: Listing, base: nat, p: Ports, stuck: bool) {
    && At(ls, base + 20, Bin(Eq, p.s1, Tmr(base), p.limit))
    && At(ls, base + 21, Not(p.s1, p.ack))
    && (stuck || At(ls, base + 22, Ite(p.s3, p.clr, Code(base, 0), Code(base, 5))))
  }

  /** The WAIT, ACTIVE and IDLE arms, from index `x`. */
  predicate OtherArms(ls: Listing, base: nat, p: Ports, x: nat, level: bool) {
    && At(ls, x + 1, Ite(p.s3, base + 20, Code(base, 5), Code(base, 2)))
    && At(ls, x + 2, Ite(p.s3, p.ack, Code(base, 3), x + 1))
    && (!level || At(ls, x + 3, Ite(p.s3, p.ack, Code(base, 3), Code(base, 4))))
    && At(ls, if level then x + 4 else x + 3, Ite(p.s3, p.start, Code(base, 1), Code(base, 0)))
  }

  predicate Arms(ls: Listing, base: nat, p: Ports, stuck: bool, level: bool) {
    ErrArm(ls, base, p, stuck) && OtherArms(ls, base, p, WaitBase(base, stuck), level)
  }

  predicate Tail(ls: Listing, base: nat, p: Ports, stuck: bool, level: bool) {
    var z := IdleBase(base, stuck, level) + 1;
    Selects(ls, z, p.s3, base + 13, ArmList(base, stuck, level), Code(base, 0)) && Registers(ls, base, p, z)
  }

  /** The next-state lines and the timer, after the six selection lines from index `z`. */
  predicate Registers(ls: Listing, base: nat, p: Ports, z: nat) {
    && At(ls, z + 7, Next(p.s3, St(base), z + 6))
    && At(ls, z + 8, Bin(And, p.s1, Is(base, 2), base + 21))
    && At(ls, z + 9, Bin(Add, p.sw, Tmr(base), base + 3))
    && At(ls, z + 10, Ite(p.sw, z + 8, z + 9, base + 2))
    && At(ls, z + 11, Next(p.sw, Tmr(base), z + 10))
  }

  /** The circuit's lines, in order, from index `base` to the end of the listing. */
  predicate Circuit(ls: Listing, base: nat, p: Ports, name: string, stuck: bool, level: bool) {
    && |ls| == IdleBase(base, stuck, level) + 12
    && Head(ls, base, p, name) && Arms(ls, base, p, stuck, level) && Tail(ls, base, p, stuck, level)
  }

  // ---- emission ----------------------------------------------------------------------------------

  method EmitHead(b: Emitter, p: Ports, name: string) returns (st: int, tmr: int)
    modifies b
    ensures old(b.lines) <= b.lines && |b.lines| == |old(b.lines)| + 19
    ensures Head(b.lines, |old(b.lines)|, p, name)
    ensures st == St(|old(b.lines)|) && tmr == Tmr(|old(b.lines)|)
  {
    var zero3 := b.N(Const(p.s3, Zero));
    var zerow := b.N(Const(p.sw, Zero));
    var _ := b.N(Const(p.sw, One));
    st := b.N(State(p.s3, name + "_st"));
    var _ := b.N(Init(p.s3, st, zero3));
    tmr := b.N(State(p.sw, name + "_tmr"));
    var _ := b.N(Init(p.sw, tmr, zerow));
    var k := |b.lines|;
    EmitCodes(b, p.s3);
    EmitCompares(b, p.s1, st, k);
  }

  method EmitErrArm(b: Emitter, base: nat, p: Ports, stuck: bool) returns (errNext: int)
    requires |b.lines| == base + 19
    modifies b
    ensures old(b.lines) <= b.lines && |b.lines| == WaitBase(base, stuck)
    ensures ErrArm(b.lines, base, p, stuck) && errNext == if stuck then Code(base, 5) else base + 22
  {
    var _ := b.N(Bin(Eq, p.s1, Tmr(base), p.limit));
    var _ := b.N(Not(p.s1, p.ack));
    errNext := Code(base, 5);
    if !stuck {
      errNext := b.N(Ite(p.s3, p.clr, Code(base, 0), Code(base, 5)));
    }
  }

  method EmitOtherArms(b: Emitter, base: nat, p: Ports, level: bool)
    returns (waitNext: int, activeNext: int, idleNext: int)
    modifies b
    ensures old(b.lines) <= b.lines && |b.lines| == |old(b.lines)| + if level then 4 else 3
    ensures OtherArms(b.lines, base, p, |old(b.lines)|, level)
    ensures waitNext == |old(b.lines)| + 2 && idleNext == |b.lines|
    ensures activeNext == if level then |old(b.lines)| + 3 else Code(base, 4)
  {
    var waitTimeout := b.N(Ite(p.s3, base + 20, Code(base, 5), Code(base, 2)));
    waitNext := b.N(Ite(p.s3, p.ack, Code(base, 3), waitTimeout));
    activeNext := Code(base, 4);
    if level {
      activeNext := b.N(Ite(p.s3, p.ack, Code(base, 3), Code(base, 4)));
    }
    idleNext := b.N(Ite(p.s3, p.start, Code(base, 1), Code(base, 0)));
  }

  method EmitArms(b: Emitter, base: nat, p: Ports, stuck: bool, level: bool) returns (arms: seq<int>)
    requires |b.lines| == base + 19
    modifies b
    ensures old(b.lines) <= b.lines && |b.lines| == IdleBase(base, stuck, level) + 1
    ensures Arms(b.lines, base, p, stuck, level) && arms == ArmList(base, stuck, level)
  {
    var errNext := EmitErrArm(b, base, p, stuck);
    var waitNext, activeNext, idleNext := EmitOtherArms(b, base, p, level);
    arms := [idleNext, Code(base, 2), waitNext, activeNext, Code(base, 0), errNext];
  }

  method EmitTail(b: Emitter, base: nat, p: Ports, stuck: bool, level: bool, arms: seq<int>)
    requires |b.lines| == IdleBase(base, stuck, level) + 1 && arms == ArmList(base, stuck, level)
    modifies b
    ensures old(b.lines) <= b.lines && |b.lines| == IdleBase(base, stuck, level) + 12
    ensures Tail(b.lines, base, p, stuck, level)
  {
    var nxt := EmitSelects(b, p.s3, base + 13, arms, Code(base, 0));
    var _ := b.N(Next(p.s3, St(base), nxt));
    var counting := b.N(Bin(And, p.s1, Is(base, 2), base + 21));
    var tmrInc := b.N(Bin(Add, p.sw, Tmr(base), base + 3));
    var tmrNext := b.N(Ite(p.sw, counting, tmrInc, base + 2));
    var _ := b.N(Next(p.sw, Tmr(base), tmrNext));
  }

  lemma HeadKept(ls: Listing, ls': Listing, base: nat, p: Ports, name: string)
    requires ls <= ls' && Head(ls, base, p, name)
    ensures Head(ls', base, p, name)
  {
  }

  lemma ArmsKept(ls: Listing, ls': Listing, base: nat, p: Ports, stuck: bool, level: bool)
    requires ls <= ls' && Arms(ls, base, p, stuck, level)
    ensures Arms(ls', base, p, stuck, level)
  {
  }

  /** `_fsm_timeout_circuit`: whatever the listing holds already, the circuit's lines follow it. */
  method EmitCircuit(b: Emitter, p: Ports, name: string, stuck: bool, level: bool) returns (st: int, tmr: int)
    modifies b
    ensures old(b.lines) <= b.lines
    ensures Circuit(b.lines, |old(b.lines)|, p, name, stuck, level)
    ensures st == St(|old(b.lines)|) && tmr == Tmr(|old(b.lines)|)
  {
    var base := |b.lines|;
    st, tmr := EmitHead(b, p, name);
    ghost var head := b.lines;
    var arms := EmitArms(b, base, p, stuck, level);
    ghost var armed := b.lines;
    EmitTail(b, base, p, stuck, level, arms);
    HeadKept(head, b.lines, base, p, name);
    ArmsKept(armed, b.lines, base, p, stuck, level);
  }

  // ---- well-formedness ---------------------------------------------------------------------------

  /** The ports name earlier lines of the right sorts. */
  predicate PortsOk(ls: Listing, base: nat, p: Ports, w: nat) {
    && w >= 1 && p.s1 <= base && p.s3 <= base && p.sw <= base
    && SortWidth(ls, p.s1) == 1 && SortWidth(ls, p.s3) == 3 && SortWidth(ls, p.sw) == w
    && Operand(ls, base, p.start, 1) && Operand(ls, base, p.ack, 1) && Operand(ls, base, p.clr, 1)
    && Operand(ls, base, p.limit, w)
  }

  predicate CodeWidths(ls: Listing, base: nat) {
    && (forall v :: base + 8 <= v <= base + 13 ==> Width(ls, v) == 3)
    && (forall v :: base + 14 <= v <= base + 19 ==> Width(ls, v) == 1)
  }

  predicate HeadReady(ls: Listing, base: nat, p: Ports, w: nat) {
    && SortWidth(ls, p.s1) == 1 && SortWidth(ls, p.s3) == 3 && SortWidth(ls, p.sw) == w >= 1
    && p.s1 <= base && p.s3 <= base && p.sw <= base
    && base + 6 <= |ls| && ls[base + 3].State? && ls[base + 5].State?
    && Width(ls, St(base)) == 3 && Width(ls, Tmr(base)) == w && Width(ls, base + 2) == w && Width(ls, base + 3) == w
  }

  predicate ArmsReady(ls: Listing, base: nat, z: nat, arms: seq<int>) {
    && base + 22 <= z && Width(ls, base + 21) == 1 && |arms| == 6
    && forall v :: 0 <= v < 6 ==> Operand(ls, z, arms[v], 3)
  }

  /** The widths of the lines the circuit reads back. */
  lemma HeadWidths(ls: Listing, base: nat, p: Ports, w: nat, name: string)
    requires PortsOk(ls, base, p, w) && Head(ls, base, p, name)
    ensures Decoder(ls, p.s1, p.s3, St(base), base + 7, base + 13)
    ensures Width(ls, base + 1) == 3 && Width(ls, base + 2) == w && Width(ls, base + 3) == w
    ensures Width(ls, Tmr(base)) == w
    ensures CodeWidths(ls, base) && HeadReady(ls, base, p, w)
  {
    DecoderWidths(ls, p.s1, p.s3, St(base), base + 7, base + 13);
  }

  lemma ArmsWidths(ls: Listing, base: nat, p: Ports, stuck: bool, level: bool)
    requires SortWidth(ls, p.s1) == 1 && SortWidth(ls, p.s3) == 3 && Arms(ls, base, p, stuck, level)
    requires CodeWidths(ls, base)
    ensures ArmsReady(ls, base, IdleBase(base, stuck, level) + 1, ArmList(base, stuck, level))
    ensures Width(ls, base + 20) == 1 && Width(ls, base + 21) == 1 && Width(ls, WaitBase(base, stuck) + 1) == 3
  {
    assert Width(ls, Code(base, 0)) == 3 && Width(ls, Code(base, 2)) == 3
        && Width(ls, Code(base, 4)) == 3 && Width(ls, Code(base, 5)) == 3;
  }

  lemma HeadOk(ls: Listing, base: nat, p: Ports, w: nat, name: string, i: nat)
    requires PortsOk(ls, base, p, w) && Head(ls, base, p, name) && base <= i < base + 19
    ensures i < |ls| && LineOk(ls, i) && !ls[i].Next?
  {
    HeadWidths(ls, base, p, w, name);
    if i >= base + 7 {
      DecoderOk(ls, p.s1, p.s3, St(base), base + 7, base + 13, i);
    }
  }

  lemma ErrArmOk(ls: Listing, base: nat, p: Ports, w: nat, stuck: bool, i: nat)
    requires PortsOk(ls, base, p, w) && ErrArm(ls, base, p, stuck)
    requires Width(ls, Tmr(base)) == w && CodeWidths(ls, base)
    requires base + 19 <= i < WaitBase(base, stuck)
    ensures i < |ls| && LineOk(ls, i) && !ls[i].Next?
  {
    assert Width(ls, Code(base, 0)) == 3 && Width(ls, Code(base, 5)) == 3;
  }

  lemma OtherArmsOk(ls: Listing, base: nat, p: Ports, w: nat, x: nat, level: bool, i: nat)
    requires PortsOk(ls, base, p, w) && OtherArms(ls, base, p, x, level) && base + 21 <= x
    requires Width(ls, base + 20) == 1 && CodeWidths(ls, base)
    requires x <= i < if level then x + 4 else x + 3
    ensures i < |ls| && LineOk(ls, i) && !ls[i].Next?
  {
    assert Width(ls, x + 1) == 3;
    assert Width(ls, Code(base, 0)) == 3 && Width(ls, Code(base, 1)) == 3 && Width(ls, Code(base, 2)) == 3
        && Width(ls, Code(base, 3)) == 3 && Width(ls, Code(base, 4)) == 3 && Width(ls, Code(base, 5)) == 3;
  }

  lemma RegistersOk(ls: Listing, base: nat, p: Ports, w: nat, z: nat, i: nat)
    requires HeadReady(ls, base, p, w) && base + 22 <= z && Registers(ls, base, p, z)
    requires Width(ls, Is(base, 2)) == 1 && Width(ls, base + 21) == 1 && Width(ls, z + 6) == 3
    requires forall j :: 0 <= j < z + 6 && ls[j].Next? ==> ls[j].state <= base
    requires z + 6 <= i < z + 11
    ensures i < |ls| && LineOk(ls, i)
  {
    assert Width(ls, z + 8) == 1 && Width(ls, z + 9) == w && Width(ls, z + 10) == w;
    assert NoNext(ls, z + 6, St(base)) && NoNext(ls, z + 10, Tmr(base));
  }

  lemma TailOk(ls: Listing, base: nat, p: Ports, w: nat, z: nat, arms: seq<int>, i: nat)
    requires HeadReady(ls, base, p, w) && CodeWidths(ls, base) && ArmsReady(ls, base, z, arms)
    requires Selects(ls, z, p.s3, base + 13, arms, Code(base, 0)) && Registers(ls, base, p, z)
    requires forall j :: 0 <= j < z && ls[j].Next? ==> ls[j].state <= base
    requires z <= i < z + 11
    ensures i < |ls| && LineOk(ls, i)
  {
    forall j | z <= j < z + 6 ensures LineOk(ls, j) && !ls[j].Next? && Width(ls, j + 1) == 3 {
      SelectsOk(ls, z, p.s3, base + 13, arms, Code(base, 0), j);
    }
    if i >= z + 6 {
      assert Width(ls, (z + 5) + 1) == 3;
      RegistersOk(ls, base, p, w, z, i);
    }
  }

  lemma FrontOk(ls: Listing, base: nat, p: Ports, w: nat, name: string, stuck: bool, level: bool, i: nat)
    requires PortsOk(ls, base, p, w) && Head(ls, base, p, name) && Arms(ls, base, p, stuck, level)
    requires base <= i < IdleBase(base, stuck, level) + 1
    ensures i < |ls| && LineOk(ls, i) && !ls[i].Next?
  {
    HeadWidths(ls, base, p, w, name);
    if i < base + 19 {
      HeadOk(ls, base, p, w, name, i);
    } else if i < WaitBase(base, stuck) {
      ErrArmOk(ls, base, p, w, stuck, i);
    } else {
      assert Width(ls, base + 20) == 1;
      OtherArmsOk(ls, base, p, w, WaitBase(base, stuck), level, i);
    }
  }

  lemma Ready(ls: Listing, base: nat, p: Ports, w: nat, name: string, stuck: bool, level: bool)
    requires PortsOk(ls, base, p, w) && Head(ls, base, p, name) && Arms(ls, base, p, stuck, level)
    ensures HeadReady(ls, base, p, w) && CodeWidths(ls, base)
    ensures ArmsReady(ls, base, IdleBase(base, stuck, level) + 1, ArmList(base, stuck, level))
  {
    HeadWidths(ls, base, p, w, name);
    ArmsWidths(ls, base, p, stuck, level);
  }

  lemma AllFrontOk(ls0: Listing, ls: Listing, p: Ports, w: nat, name: string, stuck: bool, level: bool)
    requires WellFormed(ls0) && ls0 <= ls && PortsOk(ls, |ls0|, p, w)
    requires Head(ls, |ls0|, p, name) && Arms(ls, |ls0|, p, stuck, level)
    requires IdleBase(|ls0|, stuck, level) + 1 <= |ls|
    ensures LinesOk(ls, |ls0|, IdleBase(|ls0|, stuck, level) + 1)
    ensures forall j :: 0 <= j < IdleBase(|ls0|, stuck, level) + 1 && ls[j].Next? ==> ls[j].state <= |ls0|
  {
    var base, z := |ls0|, IdleBase(|ls0|, stuck, level) + 1;
    forall i | base <= i < z ensures LineOk(ls, i) && !ls[i].Next? {
      FrontOk(ls, base, p, w, name, stuck, level, i);
    }
    forall j | 0 <= j < z && ls[j].Next? ensures ls[j].state <= base {
      if j < base {
        assert LineOk(ls0, j);
      }
    }
  }

  lemma AllBackOk(ls: Listing, base: nat, p: Ports, w: nat, z: nat, arms: seq<int>)
    requires HeadReady(ls, base, p, w) && CodeWidths(ls, base) && ArmsReady(ls, base, z, arms)
    requires Selects(ls, z, p.s3, base + 13, arms, Code(base, 0)) && Registers(ls, base, p, z)
    requires forall j :: 0 <= j < z && ls[j].Next? ==> ls[j].state <= base
    requires |ls| == z + 11
    ensures LinesOk(ls, z, |ls|)
  {
    forall i | z <= i < |ls| ensures LineOk(ls, i) {
      TailOk(ls, base, p, w, z, arms, i);
    }
  }

  /** Every operand of the emitted circuit names an earlier line of the sort it needs. */
  lemma CircuitOk(ls0: Listing, ls: Listing, p: Ports, w: nat, name: string, stuck: bool, level: bool)
    requires WellFormed(ls0) && ls0 <= ls && PortsOk(ls, |ls0|, p, w)
    requires Circuit(ls, |ls0|, p, name, stuck, level)
    ensures WellFormed(ls)
  {
    hide Head, ErrArm, OtherArms, Selects, Registers, PortsOk, HeadReady, ArmsReady, CodeWidths, LinesOk;
    var base, z := |ls0|, IdleBase(|ls0|, stuck, level) + 1;
    AllFrontOk(ls0, ls, p, w, name, stuck, level);
    Ready(ls, base, p, w, name, stuck, level);
    AllBackOk(ls, base, p, w, z, ArmList(base, stuck, level));
    Extended(ls0, ls, z);
  }

  /** The only state, input or `init` lines of the circuit are those of its two registers. */
  predicate Plain(ls: Listing, i: nat, base: nat)
    requires i < |ls|
  {
    && (ls[i].State? ==> i == base + 3 || i == base + 5)
    && !ls[i].Input?
    && (ls[i].Init? ==> i == base + 4 || i == base + 6)
  }

  lemma HeadPlain(ls: Listing, base: nat, p: Ports, name: string, i: nat)
    requires Head(ls, base, p, name) && base <= i < base + 19
    ensures i < |ls| && Plain(ls, i, base)
  {
  }

  lemma ArmsPlain(ls: Listing, base: nat, p: Ports, stuck: bool, level: bool, i: nat)
    requires Arms(ls, base, p, stuck, level) && base + 19 <= i < IdleBase(base, stuck, level) + 1
    ensures i < |ls| && Plain(ls, i, base)
  {
  }

  lemma TailPlain(ls: Listing, base: nat, p: Ports, stuck: bool, level: bool, i: nat)
    requires Tail(ls, base, p, stuck, level)
    requires IdleBase(base, stuck, level) + 1 <= i < IdleBase(base, stuck, level) + 12
    ensures i < |ls| && Plain(ls, i, base)
  {
    var z := IdleBase(base, stuck, level) + 1;
    if i < z + 6 {
      assert ls[i] == SelectLine(z, p.s3, base + 13, ArmList(base, stuck, level), Code(base, 0), i);
    }
  }

  lemma CircuitPlain(ls: Listing, base: nat, p: Ports, name: string, stuck: bool, level: bool)
    requires Circuit(ls, base, p, name, stuck, level)
    ensures forall i :: base <= i < |ls| ==> Plain(ls, i, base)
  {
    hide Head, Arms, Tail, Plain;
    forall i | base <= i < |ls| ensures Plain(ls, i, base) {
      if i < base + 19 {
        HeadPlain(ls, base, p, name, i);
      } else if i < IdleBase(base, stuck, level) + 1 {
        ArmsPlain(ls, base, p, stuck, level, i);
      } else {
        TailPlain(ls, base, p, stuck, level, i);
      }
    }
  }

  // ---- meaning -------------------------------------------------------------------------------------

  /** The documented next-state table: IDLE 0, REQ 1, WAIT 2, ACTIVE 3, DONE 4, ERROR 5; 6 and 7 are
      illegal. */
  function NextState(stuck: bool, level: bool, st: nat, expired: bool, start: bool, ack: bool, clr: bool): nat {
    if st == 0 then (if start then 1 else 0)
    else if st == 1 then 2
    else if st == 2 then (if ack then 3 else if expired then 5 else 2)
    else if st == 3 then (if level && ack then 3 else 4)
    else if st == 4 then 0
    else if st == 5 then (if stuck then 5 else if clr then 0 else 5)
    else 0
  }

  /** The timer counts, modulo its width, in WAIT while there is no acknowledgement; else it is 0. */
  function NextTimer(w: nat, st: nat, tmr: nat, ack: bool): nat {
    if st == 2 && !ack then Inc(w, tmr) else 0
  }

  lemma SignalVals(ls: Listing, env: Env, base: nat, p: Ports, w: nat, name: string, stuck: bool)
    requires WellFormed(ls) && PortsOk(ls, base, p, w) && Valuation(ls, env)
    requires Head(ls, base, p, name) && ErrArm(ls, base, p, stuck)
    ensures Val(ls, env, St(base)) == env(St(base)) < 8 && Val(ls, env, Tmr(base)) == env(Tmr(base)) < Pow2(w)
    ensures Val(ls, env, base + 2) == 0 && Val(ls, env, base + 3) == 1
    ensures Val(ls, env, base + 20) == if env(Tmr(base)) == Val(ls, env, p.limit) then 1 else 0
    ensures Val(ls, env, base + 21) == if Val(ls, env, p.ack) != 0 then 0 else 1
  {
    hide Val, LineOk, WellFormed, Codes, Compares;
    LeafVal(ls, env, St(base));
    LeafVal(ls, env, Tmr(base));
    LeafVal(ls, env, base + 2);
    LeafVal(ls, env, base + 3);
    ValBound(ls, env, St(base));
    ValBound(ls, env, Tmr(base));
    assert Pow2(3) == 8;
    BinVal(ls, env, base + 20);
    NotVal(ls, env, base + 21);
    ValBound(ls, env, p.ack);
    assert Width(ls, base + 21) == 1 && Pow2(1) == 2;
  }

  lemma CodeVals(ls: Listing, env: Env, base: nat, p: Ports, w: nat, name: string)
    requires WellFormed(ls) && PortsOk(ls, base, p, w) && Head(ls, base, p, name)
    ensures forall v :: 0 <= v < 6 ==> Val(ls, env, Code(base, v)) == v
    ensures forall v :: 0 <= v < 6 ==> Val(ls, env, Is(base, v)) == if Val(ls, env, St(base)) == v then 1 else 0
  {
    HeadWidths(ls, base, p, w, name);
    forall v | 0 <= v < 6
      ensures Val(ls, env, Code(base, v)) == v
      ensures Val(ls, env, Is(base, v)) == if Val(ls, env, St(base)) == v then 1 else 0
    {
      CompareVal(ls, env, p.s1, p.s3, St(base), base + 7, base + 13, v);
    }
  }

  /** Each arm denotes its row of the table. */
  lemma ArmVals(ls: Listing, env: Env, base: nat, p: Ports, stuck: bool, level: bool, v: nat)
    requires WellFormed(ls) && Arms(ls, base, p, stuck, level) && v < 6
    requires forall u :: 0 <= u < 6 ==> Val(ls, env, Code(base, u)) == u
    ensures Val(ls, env, ArmList(base, stuck, level)[v]) ==
            NextState(stuck, level, v, Val(ls, env, base + 20) != 0, Val(ls, env, p.start) != 0,
                      Val(ls, env, p.ack) != 0, Val(ls, env, p.clr) != 0)
  {
    hide Val;
    var x, y := WaitBase(base, stuck), IdleBase(base, stuck, level);
    assert Val(ls, env, Code(base, 0)) == 0 && Val(ls, env, Code(base, 1)) == 1 && Val(ls, env, Code(base, 2)) == 2
        && Val(ls, env, Code(base, 3)) == 3 && Val(ls, env, Code(base, 4)) == 4 && Val(ls, env, Code(base, 5)) == 5;
    match v
    case 0 => IteVal(ls, env, y + 1);
    case 2 => IteVal(ls, env, x + 1); IteVal(ls, env, x + 2);
    case 3 => if level { IteVal(ls, env, x + 3); }
    case 5 => if !stuck { IteVal(ls, env, base + 22); }
    case _ =>
  }

  /** The next-state line of the emitted circuit is the six-state table, for every code, input and width. */
  lemma StateVal(ls: Listing, env: Env, base: nat, p: Ports, w: nat, name: string, stuck: bool, level: bool)
    requires WellFormed(ls) && PortsOk(ls, base, p, w) && Valuation(ls, env)
    requires Circuit(ls, base, p, name, stuck, level)
    ensures Val(ls, env, IdleBase(base, stuck, level) + 7) ==
            NextState(stuck, level, env(St(base)), env(Tmr(base)) == Val(ls, env, p.limit),
                      Val(ls, env, p.start) != 0, Val(ls, env, p.ack) != 0, Val(ls, env, p.clr) != 0)
  {
    hide Val, ErrArm, OtherArms, Registers, CodeWidths, HeadReady, Selects;
    var z, arms := IdleBase(base, stuck, level) + 1, ArmList(base, stuck, level);
    SignalVals(ls, env, base, p, w, name, stuck);
    CodeVals(ls, env, base, p, w, name);
    HeadWidths(ls, base, p, w, name);
    ArmsWidths(ls, base, p, stuck, level);
    forall v | 0 <= v < 6
      ensures Val(ls, env, arms[v]) ==
              NextState(stuck, level, v, Val(ls, env, base + 20) != 0, Val(ls, env, p.start) != 0,
                        Val(ls, env, p.ack) != 0, Val(ls, env, p.clr) != 0)
    {
      ArmVals(ls, env, base, p, stuck, level, v);
    }
    assert Width(ls, Code(base, 0)) == 3 by { assert ls[base + 7] == Const(p.s3, Constd(0)); }
    SelectVal(ls, env, p.s1, p.s3, St(base), base + 7, base + 13, z, arms, Code(base, 0), 0);
    assert Val(ls, env, Code(base, 0)) == 0;
  }

  lemma TimerVal(ls: Listing, env: Env, base: nat, p: Ports, w: nat, name: string, stuck: bool, level: bool)
    requires WellFormed(ls) && PortsOk(ls, base, p, w) && Valuation(ls, env)
    requires Circuit(ls, base, p, name, stuck, level)
    ensures Val(ls, env, IdleBase(base, stuck, level) + 11) ==
            NextTimer(w, env(St(base)), env(Tmr(base)), Val(ls, env, p.ack) != 0)
  {
    hide Val, ErrArm, OtherArms, Selects, Head;
    var z := IdleBase(base, stuck, level) + 1;
    SignalVals(ls, env, base, p, w, name, stuck);
    CodeVals(ls, env, base, p, w, name);
    BinVal(ls, env, z + 8);
    BinVal(ls, env, z + 9);
    IteVal(ls, env, z + 10);
    assert Val(ls, env, Is(base, 2)) == if env(St(base)) == 2 then 1 else 0;
    OneBit(Val(ls, env, Is(base, 2)), Val(ls, env, base + 21));
    IncIsModular(w, env(Tmr(base)));
  }
}
