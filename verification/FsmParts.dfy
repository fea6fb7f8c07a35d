/**
 The pieces the control circuits of `scripts/profile_cases.py` share: the six state codes, their
 comparisons with a state register, and the chain of `ite` lines that selects a next state.
 */
module FsmParts {
  import opened Arith
  import opened Btor

  /** The six lines from index `base` are the three-bit constants 0 to 5. */
  predicate Codes(ls: Listing, base: nat, s3: int) {
    base + 6 <= |ls| && forall i :: base <= i < base + 6 ==> ls[i] == Const(s3, Constd(i - base))
  }

  /** The six lines from index `base` compare the register `st` with the codes from index `k`. */
  predicate Compares(ls: Listing, base: nat, s1: int, st: int, k: nat) {
    base + 6 <= |ls| && forall i :: base <= i < base + 6 ==> ls[i] == Bin(Eq, s1, st, k + 1 + (i - base))
  }

  /** The six lines from index `base` select, innermost first, the arm of the comparison that holds. */
  predicate Selects(ls: Listing, base: nat, s3: int, eqs: nat, arms: seq<int>, dflt: int) {
    && base + 6 <= |ls| && |arms| == 6
    && forall i :: base <= i < base + 6 ==> ls[i] == SelectLine(base, s3, eqs, arms, dflt, i)
  }

  function SelectLine(base: nat, s3: int, eqs: nat, arms: seq<int>, dflt: int, i: nat): Line
    requires |arms| == 6 && base <= i < base + 6
  {
    var v := base + 5 - i;
    Ite(s3, eqs + 1 + v, arms[v], if i == base then dflt else i)
  }

  method EmitCodes(b: Emitter, s3: int)
    modifies b
    ensures old(b.lines) <= b.lines && |b.lines| == |old(b.lines)| + 6
    ensures Codes(b.lines, |old(b.lines)|, s3)
  {
    var base := |b.lines|;
    for v := 0 to 6
      invariant old(b.lines) <= b.lines && |b.lines| == base + v
      invariant forall i :: base <= i < base + v ==> b.lines[i] == Const(s3, Constd(i - base))
    {
      var _ := b.N(Const(s3, Constd(v)));
    }
  }

  method EmitCompares(b: Emitter, s1: int, st: int, k: nat)
    modifies b
    ensures old(b.lines) <= b.lines && |b.lines| == |old(b.lines)| + 6
    ensures Compares(b.lines, |old(b.lines)|, s1, st, k)
  {
    var base := |b.lines|;
    for v := 0 to 6
      invariant old(b.lines) <= b.lines && |b.lines| == base + v
      invariant forall i :: base <= i < base + v ==> b.lines[i] == Bin(Eq, s1, st, k + 1 + (i - base))
    {
      var _ := b.N(Bin(Eq, s1, st, k + 1 + v));
    }
  }

  method EmitSelects(b: Emitter, s3: int, eqs: nat, arms: seq<int>, dflt: int) returns (nxt: int)
    requires |arms| == 6
    modifies b
    ensures old(b.lines) <= b.lines && |b.lines| == |old(b.lines)| + 6 && nxt == |b.lines|
    ensures Selects(b.lines, |old(b.lines)|, s3, eqs, arms, dflt)
  {
    var base := |b.lines|;
    nxt := dflt;
    for v := 6 downto 0
      invariant old(b.lines) <= b.lines && |b.lines| == base + 6 - v
      invariant nxt == if v == 6 then dflt else |b.lines|
      invariant forall i :: base <= i < |b.lines| ==> b.lines[i] == SelectLine(base, s3, eqs, arms, dflt, i)
    {
      nxt := b.N(Ite(s3, eqs + 1 + v, arms[v], nxt));
    }
  }

  // ---- meaning -------------------------------------------------------------------------------

  /** What the parts need of the rest of the listing: the sorts and the register. */
  predicate Decoder(ls: Listing, s1: int, s3: int, st: int, k: nat, eqs: nat) {
    && SortWidth(ls, s1) == 1 && SortWidth(ls, s3) == 3 && Width(ls, st) == 3
    && Codes(ls, k, s3) && Compares(ls, eqs, s1, st, k)
  }

  lemma DecoderWidths(ls: Listing, s1: int, s3: int, st: int, k: nat, eqs: nat)
    requires Decoder(ls, s1, s3, st, k, eqs)
    ensures forall v :: k + 1 <= v <= k + 6 ==> Width(ls, v) == 3
    ensures forall v :: eqs + 1 <= v <= eqs + 6 ==> Width(ls, v) == 1
  {
  }

  lemma DecoderOk(ls: Listing, s1: int, s3: int, st: int, k: nat, eqs: nat, i: nat)
    requires Decoder(ls, s1, s3, st, k, eqs)
    requires s1 <= eqs && s3 <= k && 0 < st <= eqs && k + 6 <= eqs
    requires k <= i < k + 6 || eqs <= i < eqs + 6
    ensures LineOk(ls, i) && !ls[i].Next?
  {
    DecoderWidths(ls, s1, s3, st, k, eqs);
    assert Pow2(3) == 8;
    if i >= k + 6 {
      assert Width(ls, k + 1 + (i - eqs)) == 3;
    }
  }

  lemma SelectsOk(ls: Listing, base: nat, s3: int, eqs: nat, arms: seq<int>, dflt: int, i: nat)
    requires SortWidth(ls, s3) == 3 && s3 <= base
    requires Selects(ls, base, s3, eqs, arms, dflt) && eqs + 6 <= base
    requires forall v :: eqs + 1 <= v <= eqs + 6 ==> Width(ls, v) == 1
    requires forall v :: 0 <= v < 6 ==> Operand(ls, base, arms[v], 3)
    requires Operand(ls, base, dflt, 3)
    requires base <= i < base + 6
    ensures LineOk(ls, i) && !ls[i].Next?
    ensures Width(ls, i + 1) == 3
  {
    assert Operand(ls, base, arms[base + 5 - i], 3);
    assert Width(ls, eqs + 1 + (base + 5 - i)) == 1;
    if i > base {
      assert Width(ls, i) == 3;
    }
  }

  lemma CompareVal(ls: Listing, env: Env, s1: int, s3: int, st: int, k: nat, eqs: nat, v: nat)
    requires WellFormed(ls) && v < 6 && Decoder(ls, s1, s3, st, k, eqs)
    ensures Width(ls, k + 1 + v) == 3 && Val(ls, env, k + 1 + v) == v
    ensures Width(ls, eqs + 1 + v) == 1 && Val(ls, env, eqs + 1 + v) == if Val(ls, env, st) == v then 1 else 0
  {
    DecoderWidths(ls, s1, s3, st, k, eqs);
    assert ls[k + v] == Const(s3, Constd(v));
    LeafVal(ls, env, k + 1 + v);
    assert ls[eqs + v] == Bin(Eq, s1, st, k + 1 + v);
    BinVal(ls, env, eqs + 1 + v);
  }

  /** The line of the chain that tests code `v`. */
  lemma SelectLineAt(ls: Listing, s3: int, eqs: nat, base: nat, arms: seq<int>, dflt: int, v: nat)
    requires v < 6 && SortWidth(ls, s3) == 3 && Selects(ls, base, s3, eqs, arms, dflt)
    ensures 1 <= base + 6 - v <= |ls| && Width(ls, base + 6 - v) == 3
    ensures ls[base + 6 - v - 1] == Ite(s3, eqs + 1 + v, arms[v], if v == 5 then dflt else base + 6 - (v + 1))
  {
    assert ls[base + 5 - v] == SelectLine(base, s3, eqs, arms, dflt, base + 5 - v);
  }

  /** The chain picks the arm of the register's code; an illegal code gets the default. */
  lemma {:induction false} SelectVal(ls: Listing, env: Env, s1: int, s3: int, st: int, k: nat, eqs: nat,
                                     base: nat, arms: seq<int>, dflt: int, v: nat)
    requires WellFormed(ls) && v < 6
    requires Decoder(ls, s1, s3, st, k, eqs) && Selects(ls, base, s3, eqs, arms, dflt)
    requires Width(ls, dflt) == 3 && forall u :: 0 <= u < 6 ==> Width(ls, arms[u]) == 3
    ensures Width(ls, base + 6 - v) == 3
    ensures var x := Val(ls, env, st);
            Val(ls, env, base + 6 - v) == if v <= x < 6 then Val(ls, env, arms[x]) else Val(ls, env, dflt)
    decreases 6 - v
  {
    hide Codes, Compares, Val, LineOk, WellFormed;
    SelectLineAt(ls, s3, eqs, base, arms, dflt, v);
    IteVal(ls, env, base + 6 - v);
    CompareVal(ls, env, s1, s3, st, k, eqs, v);
    hide Width, Selects, SelectLine;
    if v < 5 {
      SelectVal(ls, env, s1, s3, st, k, eqs, base, arms, dflt, v + 1);
    }
  }

  // ---- input traces ----------------------------------------------------------------------------

  /** The three inputs, lines 4 to 6 of a machine's listing; `reply` is `ack` or `done`. */
  datatype Inputs = Inputs(start: bool, reply: bool, clr: bool)

  const QUIET := Inputs(false, false, false)
  const START := Inputs(true, false, false)
  const ALL_ON := Inputs(true, true, true)

  function InputsOf(env: Env): Inputs { Inputs(env(4) != 0, env(5) != 0, env(6) != 0) }

  /** The inputs on the first `k` edges of a run. */
  function InputsUpTo(run: seq<Env>, k: nat): (ins: seq<Inputs>)
    requires k <= |run|
    ensures |ins| == k
  {
    if k == 0 then [] else InputsUpTo(run, k - 1) + [InputsOf(run[k - 1])]
  }

  lemma {:induction false} InputsAre(run: seq<Env>, ins: seq<Inputs>)
    requires |ins| <= |run| && forall j :: 0 <= j < |ins| ==> InputsOf(run[j]) == ins[j]
    ensures InputsUpTo(run, |ins|) == ins
  {
    if ins != [] {
      InputsAre(run, ins[..|ins| - 1]);
    }
  }

  function Bit(x: bool): nat { if x then 1 else 0 }

  /** The values of `base` with the given inputs. */
  ghost function With(base: Env, i: Inputs): Env { id => InputOr(base, i, id) }

  ghost function InputOr(base: Env, i: Inputs, id: int): nat {
    if id == 4 then Bit(i.start) else if id == 5 then Bit(i.reply) else if id == 6 then Bit(i.clr) else base(id)
  }

  /** The listing has its inputs on lines 4 to 6, and `base` fits it under all inputs. */
  ghost predicate Drivable(ls: Listing, base: Env) {
    && WellFormed(ls) && |ls| >= 6 && ls[3].Input? && ls[4].Input? && ls[5].Input?
    && forall i :: Valuation(ls, With(base, i))
  }

  lemma SameInputs(a: Env, b: Env)
    requires a(4) == b(4) && a(5) == b(5) && a(6) == b(6)
    ensures InputsOf(a) == InputsOf(b)
  {
  }

  lemma WithInputs(base: Env, i: Inputs)
    ensures InputsOf(With(base, i)) == i
  {
  }

  lemma RunStarts(ls: Listing, run: seq<Env>)
    requires Run(ls, run)
    ensures Valuation(ls, run[0])
  {
  }

  /** From any fitting values, any sequence of inputs drives a run of the listing. */
  lemma DriveRun(ls: Listing, base: Env, ins: seq<Inputs>) returns (run: seq<Env>)
    requires Drivable(ls, base)
    ensures Run(ls, run) && |run| == |ins| + 1 && InputsUpTo(run, |ins|) == ins
    ensures exists i :: run[0] == With(base, i)
  {
    var all := ins + [QUIET];
    run := Drive(ls, [4, 5, 6], (i: Inputs) => With(base, i), all);
    forall j | 0 <= j < |ins| ensures InputsOf(run[j]) == ins[j] {
      assert 4 in [4, 5, 6] && 5 in [4, 5, 6] && 6 in [4, 5, 6];
      WithInputs(base, all[j]);
      SameInputs(run[j], With(base, all[j]));
    }
    hide InputsOf;
    InputsAre(run, ins);
  }
}
