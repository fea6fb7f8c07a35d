/**
 What each operation of the extraction's evaluator means: the value a name has, in terms of the values of its operands.
 */
module CirctOps {
  import opened Arith
  import opened Digits
  import opened CirctEval

  /** The name is not given by the environment, and this operation computes it. */
  predicate Computed(ops: Ops, env: Env, name: string, op: Op) {
    name !in env && name in ops && ops[name] == op
  }

  /** A computed name with a value has operands with values. */
  lemma OperandMeans(ops: Ops, env: Env, name: string, h: nat, i: nat)
    requires Height(ops, env, name, h) && name !in env && name in ops && i < |Operands(ops[name])|
    ensures h > 0 && Height(ops, env, Operands(ops[name])[i], h - 1)
    ensures Means(ops, env, Operands(ops[name])[i], Denote(ops, env, Operands(ops[name])[i], h - 1))
  {
    var x := Operands(ops[name])[i];
    assert h > 0 && Height(ops, env, x, h - 1);
    assert Means(ops, env, x, Denote(ops, env, x, h - 1));
  }

  /** The program's value is the plain value, from any valid cache, for names no more than 100 operations high. */
  lemma EvaluatedMeans(ops: Ops, env: Env, cache: Env, name: string)
    requires Height(ops, env, name, 100) && CacheOk(ops, env, cache)
    ensures Means(ops, env, name, Eval(ops, name, env, cache, 0).0)
  {
    EvalIsDenote(ops, name, env, cache, 0, 100);
  }

  // ---- leaves ---------------------------------------------------------------------------------------------------

  /** The environment comes first, whatever the table says of the name; a name neither knows reads 0; so does a
      register the environment does not give. */
  lemma LeafMeans(ops: Ops, env: Env, name: string, v: I64)
    requires Means(ops, env, name, v)
    ensures name in env ==> v == env[name]
    ensures name !in env && name !in ops ==> v == 0
    ensures forall r :: Computed(ops, env, name, Register(r)) ==> v == if r in env then env[r] else 0
  {
  }

  /** A constant reads as its decimal, when that fits 64 bits; `true` and `false` as 1 and 0, anything else as 0. */
  lemma ConstantMeans(ops: Ops, env: Env, name: string, c: Literal, v: I64)
    requires Means(ops, env, name, v) && Computed(ops, env, name, Constant(c))
    ensures c == LTrue ==> v == 1
    ensures c == LFalse || c == Junk ==> v == 0
    ensures c.Decimal? ==> if InWord(c.n, 63) then v == c.n else v == 0
  {
    LargePowers();
  }

  // ---- comparisons and choice -----------------------------------------------------------------------------------

  /** A comparison is 1 or 0. The signed order is that of the values, the unsigned one puts the negative values above
      the others, and an unknown predicate never holds. */
  lemma IcmpMeans(ops: Ops, env: Env, name: string, cmp: string, lhs: string, rhs: string, l: I64, r: I64, v: I64)
    requires Computed(ops, env, name, Icmp(cmp, lhs, rhs))
    requires Means(ops, env, name, v) && Means(ops, env, lhs, l) && Means(ops, env, rhs, r)
    ensures v == 0 || v == 1
    ensures cmp == "eq" || cmp == "ceq" ==> (v == 1 <==> l == r)
    ensures cmp == "ne" || cmp == "cne" ==> (v == 0 <==> l == r)
    ensures cmp == "slt" ==> (v == 1 <==> l < r)
    ensures cmp == "sgt" ==> (v == 1 <==> r < l)
    ensures cmp == "sle" ==> (v == 0 <==> r < l)
    ensures cmp == "sge" ==> (v == 0 <==> l < r)
    ensures cmp == "ult" ==> (v == 1 <==> if l < 0 <==> r < 0 then l < r else r < 0)
    ensures cmp !in ["eq", "ceq", "ne", "cne", "slt", "sgt", "sle", "sge", "ult"] ==> v == 0
  {
    var h: nat :| Height(ops, env, name, h) && Denote(ops, env, name, h) == v;
    assert Operands(ops[name]) == [lhs, rhs];
    OperandMeans(ops, env, name, h, 0);
    OperandMeans(ops, env, name, h, 1);
    MeansUnique(ops, env, lhs, l, Denote(ops, env, lhs, h - 1));
    MeansUnique(ops, env, rhs, r, Denote(ops, env, rhs, h - 1));
    assert v == Compare(cmp, l, r);
    hide Means, Denote, Height;
    CompareMeans(cmp, l, r);
  }

  lemma CompareMeans(cmp: string, l: I64, r: I64)
    ensures var v := Compare(cmp, l, r);
            && (v == 0 || v == 1)
            && (cmp == "eq" || cmp == "ceq" ==> (v == 1 <==> l == r))
            && (cmp == "ne" || cmp == "cne" ==> (v == 0 <==> l == r))
            && (cmp == "slt" ==> (v == 1 <==> l < r))
            && (cmp == "sgt" ==> (v == 1 <==> r < l))
            && (cmp == "sle" ==> (v == 0 <==> r < l))
            && (cmp == "sge" ==> (v == 0 <==> l < r))
            && (cmp == "ult" ==> (v == 1 <==> if l < 0 <==> r < 0 then l < r else r < 0))
            && (cmp !in ["eq", "ceq", "ne", "cne", "slt", "sgt", "sle", "sge", "ult"] ==> v == 0)
  {
    UnsignedOrder(l, r);
  }

  lemma UnsignedOrder(l: I64, r: I64)
    ensures UnsignedLess(l, r) <==> if l < 0 <==> r < 0 then l < r else r < 0
  {
    Residue(l);
    Residue(r);
  }

  lemma Residue(x: I64)
    ensures x % 0x1_0000_0000_0000_0000 == if x < 0 then x + 0x1_0000_0000_0000_0000 else x
  {
  }

  /** A choice has the value of the first branch where the selector is not 0, of the second where it is. */
  lemma MuxMeans(ops: Ops, env: Env, name: string, sel: string, yes: string, no: string, s: I64, v: I64)
    requires Computed(ops, env, name, Mux(sel, yes, no)) && Means(ops, env, name, v) && Means(ops, env, sel, s)
    ensures s != 0 ==> Means(ops, env, yes, v)
    ensures s == 0 ==> Means(ops, env, no, v)
  {
    var h: nat :| Height(ops, env, name, h) && Denote(ops, env, name, h) == v;
    assert Operands(ops[name]) == [sel, yes, no];
    OperandMeans(ops, env, name, h, 0);
    OperandMeans(ops, env, name, h, 1);
    OperandMeans(ops, env, name, h, 2);
    MeansUnique(ops, env, sel, s, Denote(ops, env, sel, h - 1));
  }

  // ---- bit operations -------------------------------------------------------------------------------------------

  lemma {:induction false} DigitwiseDigit(op: Op, a: int, b: int, n: nat, k: nat)
    requires InWord(a, n) && InWord(b, n)
    ensures Digit(Digitwise(op, a, b, n), k) <==> Joined(op, Digit(a, k), Digit(b, k))
    decreases n
  {
    if n == 0 {
      SignDigits(k);
    } else {
      HalfInWord(a, n);
      HalfInWord(b, n);
      var r := Digitwise(op, a, b, n);
      assert r / 2 == Digitwise(op, a / 2, b / 2, n - 1);
      if k == 0 {
        NextDigit(r, 0);
        NextDigit(a, 0);
        NextDigit(b, 0);
      } else {
        NextDigit(r, k - 1);
        NextDigit(a, k - 1);
        NextDigit(b, k - 1);
        DigitwiseDigit(op, a / 2, b / 2, n - 1, k - 1);
      }
    }
  }

  lemma BitwiseDigit(op: Op, a: I64, b: I64, k: nat)
    ensures Digit(Bitwise(op, a, b), k) <==> Joined(op, Digit(a, k), Digit(b, k))
  {
    hide Digitwise, Digit, Joined, Pow2;
    LargePowers();
    DigitwiseDigit(op, a, b, 63, k);
  }

  /** How many of the values have a one at digit `k`. */
  function Tally(vals: seq<I64>, k: nat): (n: nat)
    ensures n <= |vals|
  {
    if vals == [] then 0 else Tally(vals[..|vals| - 1], k) + if Digit(vals[|vals| - 1], k) then 1 else 0
  }

  /** A digit of the result: one in all of the operands, in some, in an odd number of them. */
  predicate DigitOf(op: Op, ones: nat, all: nat) {
    if op.And? then ones == all else if op.Or? then ones > 0 else ones % 2 == 1
  }

  lemma {:induction false} ReduceDigit(op: Op, vals: seq<I64>, k: nat)
    requires IsBitwise(op) && vals != []
    ensures Digit(Reduce(op, vals), k) <==> DigitOf(op, Tally(vals, k), |vals|)
  {
    hide Digit, Bitwise;
    var init, last := vals[..|vals| - 1], vals[|vals| - 1];
    if init == [] {
      assert Tally(vals, k) == Tally([], k) + if Digit(last, k) then 1 else 0;
    } else {
      ReduceDigit(op, init, k);
      BitwiseDigit(op, Reduce(op, init), last, k);
    }
  }

  /** A bit operation has, digit by digit and in its sign, the conjunction, disjunction or parity of its operands'
      digits, however many operands there are; without operands it is 0. */
  lemma BitwiseMeans(ops: Ops, env: Env, name: string, op: Op, xs: seq<I64>, v: I64, k: nat)
    requires IsBitwise(op) && Computed(ops, env, name, op) && Means(ops, env, name, v) && |xs| == |op.operands|
    requires forall i :: 0 <= i < |xs| ==> Means(ops, env, op.operands[i], xs[i])
    ensures xs == [] ==> v == 0
    ensures xs != [] ==> (Digit(v, k) <==> DigitOf(op, Tally(xs, k), |xs|))
  {
    hide Digit, Bitwise;
    var h: nat :| Height(ops, env, name, h) && Denote(ops, env, name, h) == v;
    assert Operands(ops[name]) == op.operands;
    if xs != [] {
      forall i | 0 <= i < |xs| ensures h > 0 && Height(ops, env, op.operands[i], h - 1)
                                       && Denote(ops, env, op.operands[i], h - 1) == xs[i] {
        OperandMeans(ops, env, name, h, i);
        MeansUnique(ops, env, op.operands[i], xs[i], Denote(ops, env, op.operands[i], h - 1));
      }
      assert xs == seq(|xs|, i requires 0 <= i < |xs| => Denote(ops, env, op.operands[i], h - 1));
      assert v == Reduce(op, xs);
      ReduceDigit(op, xs, k);
    }
  }

  /** The digits and the sign decide the value, so nothing is left open. */
  lemma DigitsDecideValue(v: I64, w: I64)
    requires forall k :: 0 <= k <= 63 ==> Digit(v, k) == Digit(w, k)
    ensures v == w
  {
    hide Digit;
    LargePowers();
    DigitsDecide(v, w, 63);
  }
}
