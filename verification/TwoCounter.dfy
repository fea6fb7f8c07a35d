/**
 The two-counter benchmarks (`gen_exact_twocount` and `gen_exact_forward_twocount` of
 `scripts/profile_cases.py`): the exact depth of their targets, for every modulus.
 */
module TwoCounter {
  import opened Arith
  import opened Btor

  // ---- the two listings ------------------------------------------------------------------------------

  /** Lines 1 to 11, common to both: the sorts, the free input, the two counters and their increments. */
  function Common(w: nat): Listing {
    [Sort(1), Sort(w), Input(1, "turn"), Const(2, Zero), State(2, "a"), State(2, "b"), Init(2, 5, 4), Init(2, 6, 4),
     Const(2, One), Bin(Add, 2, 5, 9), Bin(Add, 2, 6, 9)]
  }

  /** Both counters wrap at `m`; `done` latches when both read `m - 1`. */
  function Latched(m: nat): Listing
    requires m >= 1
  {
    Common(Bits(m)) +
    [Const(2, Constd(m - 1)), Bin(Eq, 1, 5, 12), Bin(Eq, 1, 6, 12),
     Ite(2, 13, 4, 10), Ite(2, 14, 4, 11), Ite(2, 3, 15, 5), Ite(2, -3, 16, 6), Next(2, 5, 17), Next(2, 6, 18),
     State(1, "done"), Const(1, Zero), Init(1, 21, 22), Bin(And, 1, 13, 14), Bin(Or, 1, 21, 24), Next(1, 21, 25)]
  }

  /** The counters wrap at their width; `bad` is both reading `m - 1`. */
  function Forward(m: nat): Listing
    requires m >= 1
  {
    Common(Bits(m)) +
    [Ite(2, 3, 5, 10), Ite(2, -3, 6, 11), Next(2, 5, 12), Next(2, 6, 13),
     Const(2, Constd(m - 1)), Bin(Eq, 1, 5, 16), Bin(Eq, 1, 6, 16), Bin(And, 1, 17, 18), Bad(19)]
  }

  predicate CommonLines(ls: Listing, w: nat) {
    && w >= 1
    && At(ls, 1, Sort(1)) && At(ls, 2, Sort(w)) && At(ls, 3, Input(1, "turn")) && At(ls, 4, Const(2, Zero))
    && At(ls, 5, State(2, "a")) && At(ls, 6, State(2, "b")) && At(ls, 7, Init(2, 5, 4)) && At(ls, 8, Init(2, 6, 4))
    && At(ls, 9, Const(2, One)) && At(ls, 10, Bin(Add, 2, 5, 9)) && At(ls, 11, Bin(Add, 2, 6, 9))
  }

  predicate ForwardLines(ls: Listing, m: nat)
    requires m >= 1
  {
    && CommonLines(ls, Bits(m)) && |ls| == 20
    && At(ls, 12, Ite(2, 3, 5, 10)) && At(ls, 13, Ite(2, -3, 6, 11))
    && At(ls, 14, Next(2, 5, 12)) && At(ls, 15, Next(2, 6, 13))
    && At(ls, 16, Const(2, Constd(m - 1))) && At(ls, 17, Bin(Eq, 1, 5, 16)) && At(ls, 18, Bin(Eq, 1, 6, 16))
    && At(ls, 19, Bin(And, 1, 17, 18)) && At(ls, 20, Bad(19))
  }

  predicate CounterLines(ls: Listing, m: nat)
    requires m >= 1
  {
    && At(ls, 12, Const(2, Constd(m - 1))) && At(ls, 13, Bin(Eq, 1, 5, 12)) && At(ls, 14, Bin(Eq, 1, 6, 12))
    && At(ls, 15, Ite(2, 13, 4, 10)) && At(ls, 16, Ite(2, 14, 4, 11))
    && At(ls, 17, Ite(2, 3, 15, 5)) && At(ls, 18, Ite(2, -3, 16, 6))
    && At(ls, 19, Next(2, 5, 17)) && At(ls, 20, Next(2, 6, 18))
  }

  predicate DoneLines(ls: Listing) {
    && At(ls, 21, State(1, "done")) && At(ls, 22, Const(1, Zero)) && At(ls, 23, Init(1, 21, 22))
    && At(ls, 24, Bin(And, 1, 13, 14)) && At(ls, 25, Bin(Or, 1, 21, 24)) && At(ls, 26, Next(1, 21, 25))
  }

  lemma CommonOk(ls: Listing, w: nat, i: nat)
    requires CommonLines(ls, w) && i < 11
    ensures LineOk(ls, i) && !ls[i].Next?
  {
  }

  lemma CommonWidths(ls: Listing, w: nat)
    requires CommonLines(ls, w)
    ensures SortWidth(ls, 1) == 1 && SortWidth(ls, 2) == w && Width(ls, 3) == 1 && Width(ls, -3) == 1
    ensures Width(ls, 4) == w && Width(ls, 5) == w && Width(ls, 6) == w && Width(ls, 10) == w && Width(ls, 11) == w
    ensures ls[4].State? && ls[5].State?
  {
  }

  lemma ForwardLineOk(ls: Listing, m: nat, i: nat)
    requires m >= 1 && ForwardLines(ls, m) && 11 <= i < 20
    ensures LineOk(ls, i)
  {
    CommonWidths(ls, Bits(m));
    hide CommonLines;
    assert Width(ls, 12) == Bits(m) && Width(ls, 13) == Bits(m) && Width(ls, 16) == Bits(m);
    assert Width(ls, 17) == 1 && Width(ls, 18) == 1 && Width(ls, 19) == 1;
    forall j | 0 <= j < 11 ensures !ls[j].Next? {
      CommonOk(ls, Bits(m), j);
    }
  }

  /** The forward listing is well formed; negative operands included. */
  lemma ForwardOk(m: nat)
    requires m >= 1
    ensures WellFormed(Forward(m)) && ForwardLines(Forward(m), m)
  {
    var ls := Forward(m);
    assert ForwardLines(ls, m);
    hide Forward, CommonLines;
    forall i | 0 <= i < 20 ensures LineOk(ls, i) {
      if i < 11 {
        CommonOk(ls, Bits(m), i);
      } else {
        ForwardLineOk(ls, m, i);
      }
    }
  }

  lemma CounterWidths(ls: Listing, m: nat)
    requires m >= 1 && SortWidth(ls, 1) == 1 && SortWidth(ls, 2) == Bits(m) && CounterLines(ls, m)
    ensures Width(ls, 12) == Bits(m) && Width(ls, 13) == 1 && Width(ls, 14) == 1
    ensures Width(ls, 15) == Bits(m) && Width(ls, 16) == Bits(m) && Width(ls, 17) == Bits(m) && Width(ls, 18) == Bits(m)
  {
  }

  lemma CounterLineOk(ls: Listing, m: nat, i: nat)
    requires m >= 1 && CommonLines(ls, Bits(m)) && CounterLines(ls, m) && 11 <= i < 20
    ensures LineOk(ls, i) && (ls[i].Next? ==> ls[i].state < 21)
  {
    CommonWidths(ls, Bits(m));
    CounterWidths(ls, m);
    if i >= 18 {
      forall j | 0 <= j < 11 ensures !ls[j].Next? {
        CommonOk(ls, Bits(m), j);
      }
      hide CommonLines;
      assert NoNext(ls, 18, 5) && NoNext(ls, 19, 6);
    }
    hide CommonLines;
  }

  lemma DoneLineOk(ls: Listing, i: nat)
    requires SortWidth(ls, 1) == 1 && Width(ls, 13) == 1 && Width(ls, 14) == 1 && DoneLines(ls) && 20 <= i < 26
    requires forall j :: 0 <= j < 20 && ls[j].Next? ==> ls[j].state < 21
    ensures LineOk(ls, i)
  {
    assert Width(ls, 21) == 1 && Width(ls, 22) == 1 && Width(ls, 24) == 1 && Width(ls, 25) == 1;
  }

  lemma LatchedCommon(m: nat)
    requires m >= 1
    ensures CommonLines(Latched(m), Bits(m)) && |Latched(m)| == 26
  {
  }

  lemma LatchedCounters(m: nat)
    requires m >= 1
    ensures CounterLines(Latched(m), m)
  {
    hide Bits;
  }

  lemma LatchedDone(m: nat)
    requires m >= 1
    ensures DoneLines(Latched(m))
  {
    hide Bits;
  }

  lemma LatchedOk(m: nat)
    requires m >= 1
    ensures WellFormed(Latched(m)) && CommonLines(Latched(m), Bits(m)) && CounterLines(Latched(m), m)
            && DoneLines(Latched(m))
  {
    hide *;
    LatchedCommon(m);
    LatchedCounters(m);
    LatchedDone(m);
    LinesOkAll(Latched(m), m);
  }

  lemma LinesOkAll(ls: Listing, m: nat)
    requires m >= 1 && |ls| == 26 && CommonLines(ls, Bits(m)) && CounterLines(ls, m) && DoneLines(ls)
    ensures WellFormed(ls)
  {
    CommonWidths(ls, Bits(m));
    hide CommonLines, LineOk, DoneLines;
    CounterWidths(ls, m);
    hide CounterLines;
    forall i | 0 <= i < 20 ensures LineOk(ls, i) && (ls[i].Next? ==> ls[i].state < 21) {
      if i < 11 {
        CommonOk(ls, Bits(m), i);
      } else {
        CounterLineOk(ls, m, i);
      }
    }
    forall i | 20 <= i < 26 ensures LineOk(ls, i) {
      DoneLineOk(ls, i);
    }
  }

  lemma CommonVals(ls: Listing, env: Env, w: nat)
    requires WellFormed(ls) && Valuation(ls, env) && CommonLines(ls, w)
    ensures Val(ls, env, 3) == env(3) < 2 && Val(ls, env, -3) == 1 - env(3) && Val(ls, env, 4) == 0
    ensures Val(ls, env, 5) == env(5) < Pow2(w) && Val(ls, env, 6) == env(6) < Pow2(w)
    ensures Val(ls, env, 10) == Inc(w, env(5)) && Val(ls, env, 11) == Inc(w, env(6))
  {
    CommonWidths(ls, w);
    assert Pow2(1) == 2;
    assert ls[2].Input?;
    LeafVal(ls, env, 3);
    assert Val(ls, env, -3) == Complement(1, Val(ls, env, 3));
    hide Val, LineOk, WellFormed;
    LeafVal(ls, env, 4);
    LeafVal(ls, env, 5);
    LeafVal(ls, env, 6);
    LeafVal(ls, env, 9);
    BinVal(ls, env, 10);
    BinVal(ls, env, 11);
    IncIsModular(w, env(5));
    IncIsModular(w, env(6));
  }

  // ---- the forward form ------------------------------------------------------------------------------

  /** One counter advances per edge, `b` on `turn` and `a` otherwise. */
  function FwdStep(w: nat, s: (nat, nat), turn: bool): (nat, nat) {
    if turn then (s.0, Inc(w, s.1)) else (Inc(w, s.0), s.1)
  }

  function FwdExec(w: nat, turns: seq<bool>): (nat, nat) {
    if turns == [] then (0, 0) else FwdStep(w, FwdExec(w, turns[..|turns| - 1]), turns[|turns| - 1])
  }

  /** Refinement: an edge of the forward listing is a step, and `bad` is both counters at `m - 1`. */
  lemma ForwardEdge(m: nat, env: Env, env': Env)
    requires m >= 1 && Edge(Forward(m), env, env')
    ensures (env'(5), env'(6)) == FwdStep(Bits(m), (env(5), env(6)), env(3) != 0)
    ensures if env(3) != 0 then env'(5) == env(5) else env'(6) == env(6)
    ensures Val(Forward(m), env, 19) != 0 <==> env(5) == m - 1 && env(6) == m - 1
  {
    var ls, w := Forward(m), Bits(m);
    ForwardOk(m);
    hide Val, LineOk, WellFormed, Valuation, CommonLines, Forward;
    CommonWidths(ls, w);
    CommonVals(ls, env, w);
    hide Pow2, Bits;
    IteVal(ls, env, 12);
    IteVal(ls, env, 13);
    LeafVal(ls, env, 16);
    BinVal(ls, env, 17);
    BinVal(ls, env, 18);
    BinVal(ls, env, 19);
    OneBit(Val(ls, env, 17), Val(ls, env, 18));
  }

  /** The property the listing names bad: both counters read `m - 1`. */
  lemma ForwardBad(m: nat, env: Env)
    requires m >= 1 && Valuation(Forward(m), env)
    ensures BadAt(Forward(m), env) <==> env(5) == m - 1 && env(6) == m - 1
  {
    var ls := Forward(m);
    ForwardOk(m);
    assert ls[19] == Bad(19);
    forall i | 0 <= i < |ls| && i != 19 ensures !ls[i].Bad? {
    }
    assert Edge(ls, env, NextEnv(ls, env, env)) by { NextEnvIsEdge(ls, env, env); }
    ForwardEdge(m, env, NextEnv(ls, env, env));
  }

  function CountOf(turns: seq<bool>, turn: bool): nat {
    if turns == [] then 0 else CountOf(turns[..|turns| - 1], turn) + if turns[|turns| - 1] == turn then 1 else 0
  }

  lemma {:induction false} CountsSum(turns: seq<bool>)
    ensures CountOf(turns, false) + CountOf(turns, true) == |turns|
  {
    if turns != [] {
      CountsSum(turns[..|turns| - 1]);
    }
  }

  /** What a `w`-bit counter reads after `n` increments from 0. */
  function Residue(w: nat, n: nat): nat { n % Pow2(w) }

  lemma IncResidue(w: nat, n: nat)
    ensures Inc(w, Residue(w, n)) == Residue(w, n + 1)
  {
    var p := Pow2(w);
    hide Pow2;
    DivMod(n, p);
    var q, r := n / p, n % p;
    if r + 1 < p {
      ModIs(n + 1, p, q, r + 1);
    } else {
      assert n + 1 == (q + 1) * p + 0 by { MulSub(q + 1, q, p); }
      ModIs(n + 1, p, q + 1, 0);
    }
  }

  lemma {:induction false} FwdIsCount(w: nat, turns: seq<bool>)
    ensures FwdExec(w, turns) == (Residue(w, CountOf(turns, false)), Residue(w, CountOf(turns, true)))
  {
    if turns == [] {
      assert Residue(w, 0) == 0 by { ModIs(0, Pow2(w), 0, 0); }
    } else {
      hide Residue, Inc;
      FwdIsCount(w, turns[..|turns| - 1]);
      IncResidue(w, CountOf(turns[..|turns| - 1], false));
      IncResidue(w, CountOf(turns[..|turns| - 1], true));
    }
  }

  /** `i` edges for `a`, then `j` for `b`. */
  lemma {:induction false} CountsRealised(i: nat, j: nat) returns (turns: seq<bool>)
    ensures |turns| == i + j && CountOf(turns, false) == i && CountOf(turns, true) == j
    decreases i + j
  {
    if j > 0 {
      var pre := CountsRealised(i, j - 1);
      turns := pre + [true];
      assert turns[..|turns| - 1] == pre;
    } else if i > 0 {
      var pre := CountsRealised(i - 1, j);
      turns := pre + [false];
      assert turns[..|turns| - 1] == pre;
    } else {
      turns := [];
    }
  }

  /** The `k`-th forward layer is the whole anti-diagonal and nothing else. */
  lemma ForwardLayer(w: nat, k: nat, s: (nat, nat))
    ensures (exists turns :: |turns| == k && FwdExec(w, turns) == s)
       <==> (exists i :: 0 <= i <= k && s == (Residue(w, i), Residue(w, k - i)))
  {
    forall turns: seq<bool> | |turns| == k && FwdExec(w, turns) == s
      ensures exists i :: 0 <= i <= k && s == (Residue(w, i), Residue(w, k - i))
    {
      FwdIsCount(w, turns);
      CountsSum(turns);
      var i := CountOf(turns, false);
      assert 0 <= i <= k && s == (Residue(w, i), Residue(w, k - i));
    }
    if i :| 0 <= i <= k && s == (Residue(w, i), Residue(w, k - i)) {
      var turns := CountsRealised(i, k - i);
      FwdIsCount(w, turns);
    }
  }

  /** `bad` is reachable in exactly `k` edges iff `k` is `2(m-1)` plus a multiple of `2^w`; so it is
      first hit at `2(m-1)`. */
  lemma BadDepth(m: nat, k: nat)
    requires m >= 1
    ensures (exists turns :: |turns| == k && FwdExec(Bits(m), turns) == (m - 1, m - 1))
       <==> k >= 2 * (m - 1) && (k - 2 * (m - 1)) % Pow2(Bits(m)) == 0
  {
    var w, p := Bits(m), Pow2(Bits(m));
    ForwardLayer(w, k, (m - 1, m - 1));
    hide Pow2, Bits, FwdExec;
    if i :| 0 <= i <= k && (m - 1, m - 1) == (Residue(w, i), Residue(w, k - i)) {
      SplitResidues(k, i, m - 1, p);
    }
    if k >= 2 * (m - 1) && (k - 2 * (m - 1)) % p == 0 {
      JoinResidues(k, m - 1, p);
      assert 0 <= m - 1 <= k && (m - 1, m - 1) == (Residue(w, m - 1), Residue(w, k - (m - 1)));
    }
  }

  lemma SplitResidues(k: nat, i: nat, c: nat, p: nat)
    requires c < p && i <= k && i % p == c && (k - i) % p == c
    ensures k >= 2 * c && (k - 2 * c) % p == 0
  {
    var s, t := i / p, (k - i) / p;
    DivMod(i, p);
    DivMod(k - i, p);
    SumOfMultiples(s, t, p);
    ModIs(k - 2 * c, p, s + t, 0);
  }

  lemma JoinResidues(k: nat, c: nat, p: nat)
    requires c < p && k >= 2 * c && (k - 2 * c) % p == 0
    ensures c % p == c && (k - c) % p == c
  {
    DivMod(k - 2 * c, p);
    ModIs(k - c, p, (k - 2 * c) / p, c);
    ModIs(c, p, 0, c);
  }

  lemma SumOfMultiples(s: nat, t: nat, p: nat)
    ensures s * p + t * p == (s + t) * p && s * p >= 0 && t * p >= 0
  {
  }

  // ---- the latched form ------------------------------------------------------------------------------

  datatype Latch = Latch(a: nat, b: nat, done: bool)

  /** A counter's next value: beyond the modulus it runs out its width. */
  function Wrap(m: nat, x: nat): nat
    requires m >= 1
  {
    if x == m - 1 then 0 else Inc(Bits(m), x)
  }

  function Step(m: nat, s: Latch, turn: bool): Latch
    requires m >= 1
  {
    Latch(if turn then Wrap(m, s.a) else s.a, if turn then s.b else Wrap(m, s.b),
          s.done || (s.a == m - 1 && s.b == m - 1))
  }

  function Exec(m: nat, s: Latch, turns: seq<bool>): Latch
    requires m >= 1
    decreases |turns|
  {
    if turns == [] then s else Exec(m, Step(m, s, turns[0]), turns[1..])
  }

  predicate InRange(m: nat, s: Latch) { s.a < m && s.b < m }

  /** The counters fit their width. */
  predicate Fits(m: nat, s: Latch)
    requires m >= 1
  {
    s.a < Pow2(Bits(m)) && s.b < Pow2(Bits(m))
  }

  /** Counters in range stay in range. */
  lemma RangeKept(m: nat, s: Latch, turn: bool)
    requires m >= 1 && InRange(m, s)
    ensures Fits(m, s) && InRange(m, Step(m, s, turn))
  {
    hide Bits, Pow2;
  }

  /** Refinement: an edge of the latched listing is a step, from every state the widths admit. */
  lemma LatchedEdge(m: nat, env: Env, env': Env)
    requires m >= 1 && Edge(Latched(m), env, env')
    ensures Latch(env'(5), env'(6), env'(21) != 0) == Step(m, Latch(env(5), env(6), env(21) != 0), env(3) != 0)
    ensures env(5) < Pow2(Bits(m)) && env(6) < Pow2(Bits(m)) && env'(5) < Pow2(Bits(m)) && env'(6) < Pow2(Bits(m))
    ensures env(5) < m && env(6) < m ==> env'(5) < m && env'(6) < m
    ensures if env(3) != 0 then env'(6) == env(6) else env'(5) == env(5)
  {
    hide Val, LineOk, WellFormed, Valuation, CommonLines, Latched;
    var ls, w := Latched(m), Bits(m);
    LatchedOk(m);
    CommonWidths(ls, w);
    CommonVals(ls, env, w);
    CommonVals(ls, env', w);
    CounterVals(ls, env, m);
    DoneVals(ls, env);
    if env(5) < m && env(6) < m {
      RangeKept(m, Latch(env(5), env(6), env(21) != 0), env(3) != 0);
    }
  }

  lemma CounterVals(ls: Listing, env: Env, m: nat)
    requires m >= 1 && WellFormed(ls) && Valuation(ls, env) && CommonLines(ls, Bits(m)) && CounterLines(ls, m)
    ensures Val(ls, env, 13) == if env(5) == m - 1 then 1 else 0
    ensures Val(ls, env, 14) == if env(6) == m - 1 then 1 else 0
    ensures Val(ls, env, 17) == if env(3) != 0 then Wrap(m, env(5)) else env(5)
    ensures Val(ls, env, 18) == if env(3) != 0 then env(6) else Wrap(m, env(6))
  {
    hide Val, LineOk, WellFormed, Valuation, CommonLines;
    CommonVals(ls, env, Bits(m));
    LeafVal(ls, env, 12);
    BinVal(ls, env, 13);
    BinVal(ls, env, 14);
    IteVal(ls, env, 15);
    IteVal(ls, env, 16);
    IteVal(ls, env, 17);
    IteVal(ls, env, 18);
  }

  lemma DoneVals(ls: Listing, env: Env)
    requires WellFormed(ls) && Valuation(ls, env) && SortWidth(ls, 1) == 1 && DoneLines(ls)
    requires Val(ls, env, 13) < 2 && Val(ls, env, 14) < 2
    ensures Val(ls, env, 25) != 0 <==> env(21) != 0 || (Val(ls, env, 13) == 1 && Val(ls, env, 14) == 1)
  {
    assert env(21) < 2 by { assert ls[20].State? && Pow2(1) == 2; }
    assert Width(ls, 24) == 1 && Width(ls, 25) == 1;
    hide Val, LineOk, WellFormed, Valuation;
    LeafVal(ls, env, 21);
    BinVal(ls, env, 24);
    BinVal(ls, env, 25);
    OneBit(Val(ls, env, 13), Val(ls, env, 14));
    OneBit(Val(ls, env, 21), Val(ls, env, 24));
  }

  /** Steps of one counter until it reads `m - 1`: beyond the modulus it first runs out its width. */
  function Left(m: nat, x: nat): nat
    requires m >= 1 && x < Pow2(Bits(m))
  {
    if x < m then m - 1 - x else Pow2(Bits(m)) - x + (m - 1)
  }

  function Distance(m: nat, s: Latch): nat
    requires m >= 1 && Fits(m, s)
  {
    Left(m, s.a) + Left(m, s.b)
  }

  /** A step brings a counter one closer, or it was there. */
  lemma LeftStep(m: nat, x: nat)
    requires m >= 1 && x < Pow2(Bits(m))
    ensures Wrap(m, x) < Pow2(Bits(m)) && (x != m - 1 ==> Left(m, Wrap(m, x)) + 1 == Left(m, x))
  {
    hide Bits, Pow2;
  }

  lemma DistanceStep(m: nat, s: Latch, turn: bool)
    requires m >= 1 && Fits(m, s)
    ensures Fits(m, Step(m, s, turn)) && Distance(m, Step(m, s, turn)) + 1 >= Distance(m, s)
    ensures turn && s.a != m - 1 ==> Distance(m, Step(m, s, turn)) + 1 == Distance(m, s)
    ensures !turn && s.b != m - 1 ==> Distance(m, Step(m, s, turn)) + 1 == Distance(m, s)
  {
    LeftStep(m, s.a);
    LeftStep(m, s.b);
    hide Bits, Pow2, Wrap;
  }

  /** No run reaches the corner sooner than its distance. */
  lemma {:induction false} NoSooner(m: nat, s: Latch, turns: seq<bool>)
    requires m >= 1 && Fits(m, s)
    ensures Fits(m, Exec(m, s, turns))
    ensures Distance(m, Exec(m, s, turns)) + |turns| >= Distance(m, s)
    decreases |turns|
  {
    hide Distance, Fits, Step;
    if turns != [] {
      DistanceStep(m, s, turns[0]);
      NoSooner(m, Step(m, s, turns[0]), turns[1..]);
    }
  }

  lemma AtDistanceZero(m: nat, s: Latch)
    requires m >= 1 && Fits(m, s)
    ensures Distance(m, s) == 0 <==> s.a == m - 1 && s.b == m - 1
  {
    hide Bits, Pow2;
  }

  /** A run that reaches the corner at its distance. */
  lemma {:induction false} JustInTime(m: nat, s: Latch) returns (turns: seq<bool>)
    requires m >= 1 && Fits(m, s)
    ensures |turns| == Distance(m, s)
    ensures Exec(m, s, turns).a == m - 1 && Exec(m, s, turns).b == m - 1
    decreases Distance(m, s)
  {
    AtDistanceZero(m, s);
    if s.a == m - 1 && s.b == m - 1 {
      turns := [];
    } else {
      hide Distance, Fits, Step;
      var turn := s.a != m - 1;
      DistanceStep(m, s, turn);
      var rest := JustInTime(m, Step(m, s, turn));
      turns := [turn] + rest;
      assert turns[1..] == rest;
    }
  }

  /** The fewest edges from any state to both counters at `m - 1` is exactly the sum of what each has left, which in
      range is the sum of their distances to `m - 1`. */
  lemma CornerDepth(m: nat, s: Latch)
    requires m >= 1 && Fits(m, s)
    ensures InRange(m, s) ==> Distance(m, s) == (m - 1 - s.a) + (m - 1 - s.b)
    ensures exists turns :: |turns| == Distance(m, s) && Exec(m, s, turns).a == m - 1 && Exec(m, s, turns).b == m - 1
    ensures forall turns :: Exec(m, s, turns).a == m - 1 && Exec(m, s, turns).b == m - 1 ==> |turns| >= Distance(m, s)
  {
    assert InRange(m, s) ==> Distance(m, s) == (m - 1 - s.a) + (m - 1 - s.b);
    var turns := JustInTime(m, s);
    forall turns | Exec(m, s, turns).a == m - 1 && Exec(m, s, turns).b == m - 1 ensures |turns| >= Distance(m, s) {
      NoSooner(m, s, turns);
      AtDistanceZero(m, Exec(m, s, turns));
    }
  }

  lemma {:induction false} LatchNeedsCorner(m: nat, s: Latch, turns: seq<bool>)
    requires m >= 1 && Fits(m, s) && !s.done && Exec(m, s, turns).done
    ensures |turns| > Distance(m, s)
    decreases |turns|
  {
    if turns != [] {
      DistanceStep(m, s, turns[0]);
      AtDistanceZero(m, s);
      hide Distance, Fits;
      if !Step(m, s, turns[0]).done {
        LatchNeedsCorner(m, Step(m, s, turns[0]), turns[1..]);
      }
    }
  }

  lemma {:induction false} ExecAppend(m: nat, s: Latch, turns: seq<bool>, turn: bool)
    requires m >= 1
    ensures Exec(m, s, turns + [turn]) == Step(m, Exec(m, s, turns), turn)
    decreases |turns|
  {
    if turns == [] {
      assert ([turn])[1..] == [];
    } else {
      assert (turns + [turn])[1..] == turns[1..] + [turn];
      ExecAppend(m, Step(m, s, turns[0]), turns[1..], turn);
    }
  }

  /** `done` can be latched from every state, first one edge after the corner. */
  lemma DoneDepth(m: nat, s: Latch)
    requires m >= 1 && Fits(m, s) && !s.done
    ensures exists turns :: |turns| == Distance(m, s) + 1 && Exec(m, s, turns).done
    ensures forall turns :: Exec(m, s, turns).done ==> |turns| >= Distance(m, s) + 1
  {
    var turns := JustInTime(m, s);
    ExecAppend(m, s, turns, true);
    assert |turns + [true]| == Distance(m, s) + 1;
    forall turns | Exec(m, s, turns).done ensures |turns| >= Distance(m, s) + 1 {
      LatchNeedsCorner(m, s, turns);
    }
  }
}
