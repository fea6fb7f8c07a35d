/**
 The SSA evaluator of `crates/mununu-extract/src/circt.rs` (and its twin in `tools/circt_extract.py`): a
 depth-limited recursion over the operations that shares a cache of values.
 */
module CirctEval {

  import opened Arith

  type I64 = x: int | -0x8000_0000_0000_0000 <= x < 0x8000_0000_0000_0000

  type Env = map<string, I64>

  /** The text of a constant: anything that does not parse as a 64-bit decimal reads as 0. */
  datatype Literal = LTrue | LFalse | Decimal(n: int) | Junk

  datatype Op =
    | Constant(value: Literal)
    | Register(name: string)
    | Icmp(cmp: string, lhs: string, rhs: string)
    | Mux(sel: string, yes: string, no: string)
    | And(operands: seq<string>)
    | Or(operands: seq<string>)
    | Xor(operands: seq<string>)

  type Ops = map<string, Op>

  // ---- integer operations -----------------------------------------------------------------------------------

  function ParseConstant(v: Literal): I64 {
    match v
    case LTrue => 1
    case LFalse => 0
    case Decimal(n) => if -0x8000_0000_0000_0000 <= n < 0x8000_0000_0000_0000 then n else 0
    case Junk => 0
  }

  /** Comparison as unsigned numbers of 64 bits, in the Rust program. */
  predicate UnsignedLess(l: int, r: int) { l % 0x1_0000_0000_0000_0000 < r % 0x1_0000_0000_0000_0000 }

  /** Comparison of the low 32 bits, in the Python program. */
  predicate UnsignedLess32(l: int, r: int) { l % 0x1_0000_0000 < r % 0x1_0000_0000 }

  function Compare(cmp: string, l: I64, r: I64): I64 {
    var holds :=
      if cmp == "eq" || cmp == "ceq" then l == r
      else if cmp == "ne" || cmp == "cne" then l != r
      else if cmp == "slt" then l < r
      else if cmp == "sgt" then l > r
      else if cmp == "sle" then l <= r
      else if cmp == "sge" then l >= r
      else if cmp == "ult" then UnsignedLess(l, r)
      else false;
    if holds then 1 else 0
  }

  predicate Signed(b: nat, x: int)
    requires b >= 1
  {
    0 <= x + Pow2(b - 1) < 2 * Pow2(b - 1)
  }

  /** The two programs agree on `ult` for all operands of `b` bits, in two's complement, exactly up to 32 bits. */
  lemma UnsignedLessAgree(b: nat)
    requires b >= 1
    ensures (forall l, r :: Signed(b, l) && Signed(b, r) ==> (UnsignedLess(l, r) <==> UnsignedLess32(l, r))) <==>
            b <= 32
  {
    assert Pow2(31) == 0x8000_0000 && Pow2(32) == 0x1_0000_0000 by { LargePowers(); }
    if b <= 32 {
      Pow2Monotone(b - 1, 31);
      forall l, r | Signed(b, l) && Signed(b, r) ensures UnsignedLess(l, r) <==> UnsignedLess32(l, r) {
        LowWords(l, r);
      }
    } else {
      Pow2Monotone(32, b - 1);
      hide Pow2;
      var l, r := 0, -0x1_0000_0000;
      assert Signed(b, l) && Signed(b, r) && UnsignedLess(l, r) && !UnsignedLess32(l, r);
    }
  }

  lemma LargePowers()
    ensures Pow2(31) == 0x8000_0000 && Pow2(32) == 0x1_0000_0000 && Pow2(63) == 0x8000_0000_0000_0000
  {
    hide Pow2;
    assert Pow2(0) == 1 by { NoDoubling(); }
    EightMore(0);
    EightMore(8);
    EightMore(16);
    EightMore(24);
    EightMore(32);
    EightMore(40);
    EightMore(48);
    EightMore(56);
    DoubledPower(31);
    DoubledPower(63);
  }

  lemma NoDoubling()
    ensures Pow2(0) == 1
  {
  }

  lemma DoubledPower(n: nat)
    ensures Pow2(n + 1) == 2 * Pow2(n)
  {
  }

  lemma FourMore(n: nat)
    ensures Pow2(n + 4) == 0x10 * Pow2(n)
  {
    hide Pow2;
    DoubledPower(n);
    DoubledPower(n + 1);
    DoubledPower(n + 2);
    DoubledPower(n + 3);
  }

  lemma EightMore(n: nat)
    ensures Pow2(n + 8) == 0x100 * Pow2(n)
  {
    hide Pow2;
    FourMore(n);
    FourMore(n + 4);
  }

  lemma LowWords(l: int, r: int)
    requires -0x8000_0000 <= l < 0x8000_0000 && -0x8000_0000 <= r < 0x8000_0000
    ensures UnsignedLess(l, r) <==> UnsignedLess32(l, r)
  {
    assert l % 0x1_0000_0000_0000_0000 == if l < 0 then l + 0x1_0000_0000_0000_0000 else l;
    assert r % 0x1_0000_0000_0000_0000 == if r < 0 then r + 0x1_0000_0000_0000_0000 else r;
    assert l % 0x1_0000_0000 == if l < 0 then l + 0x1_0000_0000 else l;
    assert r % 0x1_0000_0000 == if r < 0 then r + 0x1_0000_0000 else r;
  }

  /** How an operation combines two binary digits. */
  predicate Joined(op: Op, p: bool, q: bool) {
    if op.And? then p && q else if op.Or? then p || q else p != q
  }

  /** The `n` low digits of two numbers joined one by one, and above them their signs. */
  function Digitwise(op: Op, a: int, b: int, n: nat): int
    decreases n
  {
    if n == 0 then (if Joined(op, a < 0, b < 0) then -1 else 0)
    else 2 * Digitwise(op, a / 2, b / 2, n - 1) + if Joined(op, a % 2 == 1, b % 2 == 1) then 1 else 0
  }

  lemma {:induction false} DigitwiseFits(op: Op, a: int, b: int, n: nat)
    ensures 0 <= Digitwise(op, a, b, n) + Pow2(n) < 2 * Pow2(n)
    decreases n
  {
    if n > 0 {
      DigitwiseFits(op, a / 2, b / 2, n - 1);
    }
  }

  /** The bit operations on 64-bit words: 63 digits and the sign. */
  function Bitwise(op: Op, a: I64, b: I64): I64 {
    DigitwiseFits(op, a, b, 63);
    LargePowers();
    Digitwise(op, a, b, 63)
  }

  /** The operands combined left to right; 0 when there are none. */
  function Reduce(op: Op, vals: seq<I64>): I64 {
    if vals == [] then 0
    else if |vals| == 1 then vals[0]
    else Bitwise(op, Reduce(op, vals[..|vals| - 1]), vals[|vals| - 1])
  }

  predicate IsBitwise(op: Op) { op.And? || op.Or? || op.Xor? }

  // ---- the program's evaluation, as a function of the cache -----------------------------------------------------

  const DEPTH := 100

  /** The value returned and the cache left behind. */
  function Eval(ops: Ops, name: string, env: Env, cache: Env, depth: nat): (I64, Env)
    decreases DEPTH + 1 - depth, 0
  {
    if depth > DEPTH then (0, cache)
    else if name in cache then (cache[name], cache)
    else if name in env then (env[name], cache[name := env[name]])
    else if name !in ops then (0, cache[name := 0])
    else
      var (v, cache') := EvalOp(ops, ops[name], env, cache, depth);
      (v, cache'[name := v])
  }

  function EvalOp(ops: Ops, op: Op, env: Env, cache: Env, depth: nat): (I64, Env)
    requires depth <= DEPTH
    decreases DEPTH - depth, 2, 0
  {
    match op
    case Constant(value) => (ParseConstant(value), cache)
    case Register(reg) => (if reg in env then env[reg] else 0, cache)
    case Icmp(cmp, lhs, rhs) =>
      var (l, c1) := Eval(ops, lhs, env, cache, depth + 1);
      var (r, c2) := Eval(ops, rhs, env, c1, depth + 1);
      (Compare(cmp, l, r), c2)
    case Mux(sel, yes, no) =>
      var (s, c1) := Eval(ops, sel, env, cache, depth + 1);
      Eval(ops, if s != 0 then yes else no, env, c1, depth + 1)
    case _ =>
      var (vals, c1) := EvalAll(ops, op.operands, env, cache, depth + 1);
      (Reduce(op, vals), c1)
  }

  /** Evaluation of a list of names, one after the other, with one cache. */
  function EvalAll(ops: Ops, names: seq<string>, env: Env, cache: Env, depth: nat): (r: (seq<I64>, Env))
    ensures |r.0| == |names|
    decreases DEPTH + 1 - depth, 1, |names|
  {
    if names == [] then ([], cache) else
    var (vals, c1) := EvalAll(ops, names[..|names| - 1], env, cache, depth);
    var (v, c2) := Eval(ops, names[|names| - 1], env, c1, depth);
    (vals + [v], c2)
  }

  // ---- the program ---------------------------------------------------------------------------------------------

  class Evaluator {
    const ops: Ops
    const env: Env
    var cache: Env

    constructor (ops: Ops, env: Env)
      ensures this.ops == ops && this.env == env && cache == map[]
    {
      this.ops, this.env := ops, env;
      cache := map[];
    }

    method Evaluate(name: string, depth: nat) returns (v: I64)
      requires depth <= DEPTH + 1
      modifies this
      ensures (v, cache) == Eval(ops, name, env, old(cache), depth)
      decreases DEPTH + 1 - depth, 0
    {
      hide Compare, Reduce, ParseConstant, EvalAll;
      if depth > DEPTH {
        return 0;
      }
      if name in cache {
        return cache[name];
      }
      if name in env {
        cache := cache[name := env[name]];
        return env[name];
      }
      if name !in ops {
        cache := cache[name := 0];
        return 0;
      }
      match ops[name] {
        case Constant(value) =>
          v := ParseConstant(value);
        case Register(reg) =>
          v := if reg in env then env[reg] else 0;
        case Icmp(cmp, lhs, rhs) =>
          var l := Evaluate(lhs, depth + 1);
          var r := Evaluate(rhs, depth + 1);
          v := Compare(cmp, l, r);
        case Mux(sel, yes, no) =>
          var s := Evaluate(sel, depth + 1);
          if s != 0 {
            v := Evaluate(yes, depth + 1);
          } else {
            v := Evaluate(no, depth + 1);
          }
        case And(operands) =>
          v := EvaluateOperands(ops[name], depth + 1);
        case Or(operands) =>
          v := EvaluateOperands(ops[name], depth + 1);
        case Xor(operands) =>
          v := EvaluateOperands(ops[name], depth + 1);
      }
      cache := cache[name := v];
    }

    method EvaluateOperands(op: Op, depth: nat) returns (v: I64)
      requires depth <= DEPTH + 1 && IsBitwise(op)
      modifies this
      ensures var r := EvalAll(ops, op.operands, env, old(cache), depth); v == Reduce(op, r.0) && cache == r.1
      decreases DEPTH + 1 - depth, 1
    {
      hide Reduce, Eval;
      var names := op.operands;
      var vals: seq<I64> := [];
      for i := 0 to |names|
        invariant (vals, cache) == EvalAll(ops, names[..i], env, old(cache), depth)
      {
        var x := Evaluate(names[i], depth);
        assert names[..i + 1][..i] == names[..i];
        vals := vals + [x];
      }
      assert names[..|names|] == names;
      v := Fold(op, vals);
    }

    method Fold(op: Op, vals: seq<I64>) returns (v: I64)
      ensures v == Reduce(op, vals)
    {
      hide Bitwise;
      if vals == [] {
        return 0;
      }
      v := vals[0];
      for i := 1 to |vals|
        invariant v == Reduce(op, vals[..i])
      {
        assert vals[..i + 1][..i] == vals[..i];
        v := Bitwise(op, v, vals[i]);
      }
      assert vals[..|vals|] == vals;
    }
  }

  // ---- what a name denotes ----------------------------------------------------------------------------------------

  function Operands(op: Op): seq<string> {
    match op
    case Constant(_) => []
    case Register(_) => []
    case Icmp(_, lhs, rhs) => [lhs, rhs]
    case Mux(sel, yes, no) => [sel, yes, no]
    case _ => op.operands
  }

  /** Below `name`, cut at the names the environment gives, the operations form no chain longer than `h`. */
  predicate Height(ops: Ops, env: Env, name: string, h: nat)
    decreases h
  {
    name in env || name !in ops ||
    forall i :: 0 <= i < |Operands(ops[name])| ==> h > 0 && Height(ops, env, Operands(ops[name])[i], h - 1)
  }

  /** The plain value of a name: no cache, no depth limit. */
  function Denote(ops: Ops, env: Env, name: string, h: nat): I64
    requires Height(ops, env, name, h)
    decreases h
  {
    if name in env then env[name]
    else if name !in ops then 0
    else
      var op := ops[name];
      var xs := Operands(op);
      assert op.Icmp? || op.Mux? ==> xs[0] == Operands(ops[name])[0] && xs[1] == Operands(ops[name])[1];
      assert op.Mux? ==> xs[2] == Operands(ops[name])[2];
      match op
      case Constant(value) => ParseConstant(value)
      case Register(reg) => if reg in env then env[reg] else 0
      case Icmp(cmp, lhs, rhs) => Compare(cmp, Denote(ops, env, lhs, h - 1), Denote(ops, env, rhs, h - 1))
      case Mux(sel, yes, no) =>
        if Denote(ops, env, sel, h - 1) != 0 then Denote(ops, env, yes, h - 1) else Denote(ops, env, no, h - 1)
      case _ =>
        if xs == [] then Reduce(op, [])
        else Reduce(op, seq(|xs|, i requires 0 <= i < |xs| => Denote(ops, env, xs[i], h - 1)))
  }

  lemma {:induction false} HeightWeakens(ops: Ops, env: Env, name: string, h: nat, k: nat)
    requires Height(ops, env, name, h) && h <= k
    ensures Height(ops, env, name, k)
    decreases h
  {
    if name !in env && name in ops {
      var xs := Operands(ops[name]);
      forall i | 0 <= i < |xs| ensures k > 0 && Height(ops, env, xs[i], k - 1) {
        HeightWeakens(ops, env, xs[i], h - 1, k - 1);
      }
    }
  }

  /** The value does not depend on the bound that shows the graph is acyclic. */
  lemma {:induction false} DenoteUnique(ops: Ops, env: Env, name: string, h: nat, k: nat)
    requires Height(ops, env, name, h) && Height(ops, env, name, k)
    ensures Denote(ops, env, name, h) == Denote(ops, env, name, k)
    decreases h
  {
    hide Compare, Reduce, ParseConstant;
    if name !in env && name in ops {
      var op := ops[name];
      var xs := Operands(op);
      forall i | 0 <= i < |xs| ensures Denote(ops, env, xs[i], h - 1) == Denote(ops, env, xs[i], k - 1) {
        DenoteUnique(ops, env, xs[i], h - 1, k - 1);
      }
      if op.Icmp? || op.Mux? {
        assert xs[0] == Operands(op)[0] && xs[1] == Operands(op)[1];
        assert op.Mux? ==> xs[2] == Operands(op)[2];
      } else if IsBitwise(op) && xs != [] {
        assert Height(ops, env, Operands(op)[0], h - 1) && Height(ops, env, Operands(op)[0], k - 1);
        assert seq(|xs|, i requires 0 <= i < |xs| => Denote(ops, env, xs[i], h - 1))
            == seq(|xs|, i requires 0 <= i < |xs| => Denote(ops, env, xs[i], k - 1));
      }
    }
  }

  /** `name` has a plain value, and it is `v`. */
  ghost predicate Means(ops: Ops, env: Env, name: string, v: I64) {
    exists h: nat :: Height(ops, env, name, h) && Denote(ops, env, name, h) == v
  }

  lemma MeansUnique(ops: Ops, env: Env, name: string, v: I64, w: I64)
    requires Means(ops, env, name, v) && Means(ops, env, name, w)
    ensures v == w
  {
    var h: nat :| Height(ops, env, name, h) && Denote(ops, env, name, h) == v;
    var k: nat :| Height(ops, env, name, k) && Denote(ops, env, name, k) == w;
    DenoteUnique(ops, env, name, h, k);
  }

  /** Every cached value is the plain value of its name. */
  ghost predicate CacheOk(ops: Ops, env: Env, cache: Env) {
    forall k :: k in cache ==> Means(ops, env, k, cache[k])
  }

  // ---- memoised evaluation refines the plain one ------------------------------------------------------------------

  lemma CacheGrows(ops: Ops, env: Env, cache: Env, name: string, v: I64)
    requires CacheOk(ops, env, cache) && Means(ops, env, name, v)
    ensures CacheOk(ops, env, cache[name := v])
  {
  }

  /** With any valid cache, a name whose height fits under the depth limit evaluates to its plain value, and the
      cache stays valid. */
  lemma {:induction false} EvalIsDenote(ops: Ops, name: string, env: Env, cache: Env, depth: nat, h: nat)
    requires Height(ops, env, name, h) && depth + h <= DEPTH && CacheOk(ops, env, cache)
    ensures var r := Eval(ops, name, env, cache, depth);
            r.0 == Denote(ops, env, name, h) && CacheOk(ops, env, r.1)
    decreases h, 0
  {
    hide Compare, Reduce, ParseConstant, EvalAll, EvalOp;
    if name in cache {
      assert Means(ops, env, name, Denote(ops, env, name, h));
      MeansUnique(ops, env, name, cache[name], Denote(ops, env, name, h));
    } else {
      var v := Denote(ops, env, name, h);
      assert Means(ops, env, name, v);
      if name in env || name !in ops {
        CacheGrows(ops, env, cache, name, v);
      } else {
        OpIsDenote(ops, name, env, cache, depth, h);
        CacheGrows(ops, env, EvalOp(ops, ops[name], env, cache, depth).1, name, v);
      }
    }
  }

  lemma {:induction false} OpIsDenote(ops: Ops, name: string, env: Env, cache: Env, depth: nat, h: nat)
    requires Height(ops, env, name, h) && depth + h <= DEPTH && CacheOk(ops, env, cache)
    requires name !in env && name in ops
    ensures var r := EvalOp(ops, ops[name], env, cache, depth);
            r.0 == Denote(ops, env, name, h) && CacheOk(ops, env, r.1)
    decreases h, 0, 0
  {
    hide Compare, Reduce, ParseConstant, CacheOk, EvalAll, Eval;
    var op := ops[name];
    var xs := Operands(op);
    match op
    case Constant(_) =>
    case Register(_) =>
    case Icmp(_, lhs, rhs) =>
      assert lhs == Operands(op)[0] && rhs == Operands(op)[1];
      EvalIsDenote(ops, lhs, env, cache, depth + 1, h - 1);
      EvalIsDenote(ops, rhs, env, Eval(ops, lhs, env, cache, depth + 1).1, depth + 1, h - 1);
    case Mux(sel, yes, no) =>
      assert sel == Operands(op)[0] && yes == Operands(op)[1] && no == Operands(op)[2];
      EvalIsDenote(ops, sel, env, cache, depth + 1, h - 1);
      var r := Eval(ops, sel, env, cache, depth + 1);
      EvalIsDenote(ops, if r.0 != 0 then yes else no, env, r.1, depth + 1, h - 1);
    case _ =>
      if xs != [] {
        assert Height(ops, env, Operands(ops[name])[0], h - 1);
        AllAreDenoted(ops, xs, env, cache, depth + 1, h - 1);
        assert EvalAll(ops, xs, env, cache, depth + 1).0
            == seq(|xs|, i requires 0 <= i < |xs| => Denote(ops, env, xs[i], h - 1));
      } else {
        NoOperands(ops, env, cache, depth + 1);
      }
  }

  lemma NoOperands(ops: Ops, env: Env, cache: Env, depth: nat)
    ensures EvalAll(ops, [], env, cache, depth) == ([], cache)
  {
  }

  lemma {:induction false} AllAreDenoted(ops: Ops, names: seq<string>, env: Env, cache: Env, depth: nat, h: nat)
    requires forall i :: 0 <= i < |names| ==> Height(ops, env, names[i], h)
    requires depth + h <= DEPTH && CacheOk(ops, env, cache)
    ensures var r := EvalAll(ops, names, env, cache, depth);
            CacheOk(ops, env, r.1) && forall i :: 0 <= i < |names| ==> r.0[i] == Denote(ops, env, names[i], h)
    decreases h, 1, |names|
  {
    hide Eval, Denote, Height, CacheOk;
    if names != [] {
      var init := names[..|names| - 1];
      assert forall i :: 0 <= i < |init| ==> init[i] == names[i];
      AllAreDenoted(ops, init, env, cache, depth, h);
      EvalIsDenote(ops, names[|names| - 1], env, EvalAll(ops, init, env, cache, depth).1, depth, h);
    }
  }

  /** The registers' next values from an empty cache, as the extraction evaluates them: each is its plain value,
      so neither the order of the registers nor the sharing of the cache matters. */
  lemma SharedCacheIsHarmless(ops: Ops, nexts: seq<string>, env: Env)
    requires forall i :: 0 <= i < |nexts| ==> Height(ops, env, nexts[i], DEPTH)
    ensures forall i :: 0 <= i < |nexts| ==>
              EvalAll(ops, nexts, env, map[], 0).0[i] == Denote(ops, env, nexts[i], DEPTH)
              == Eval(ops, nexts[i], env, map[], 0).0
  {
    AllAreDenoted(ops, nexts, env, map[], 0, DEPTH);
    forall i | 0 <= i < |nexts| ensures Eval(ops, nexts[i], env, map[], 0).0 == Denote(ops, env, nexts[i], DEPTH) {
      EvalIsDenote(ops, nexts[i], env, map[], 0, DEPTH);
    }
  }

  // ---- the depth limit is exact ---------------------------------------------------------------------------------

  function Link(i: nat): string { seq(i, _ => 'n') }

  /** A chain of `len` one-operand operations down to the constant `true`. */
  function Chain(len: nat): Ops {
    map s | s in (set i | 0 <= i <= len :: Link(i)) :: if |s| == len then Constant(LTrue) else And([Link(|s| + 1)])
  }

  lemma ChainAt(len: nat, i: nat)
    requires i <= len
    ensures Link(i) in Chain(len) && Chain(len)[Link(i)] == if i == len then Constant(LTrue) else And([Link(i + 1)])
  {
    assert |Link(i)| == i;
  }

  /** The plain value of every link is 1. */
  lemma {:induction false} ChainDenotesOne(len: nat, i: nat)
    requires i <= len
    ensures Height(Chain(len), map[], Link(i), len - i) && Denote(Chain(len), map[], Link(i), len - i) == 1
    decreases len - i
  {
    ChainAt(len, i);
    hide Chain, Link;
    if i == len {
      assert Operands(Chain(len)[Link(i)]) == [];
    } else {
      ChainDenotesOne(len, i + 1);
      OneDenotes(Chain(len), Link(i), Link(i + 1), len - i - 1);
    }
  }

  lemma OneDenotes(ops: Ops, a: string, b: string, h: nat)
    requires a in ops && ops[a] == And([b]) && Height(ops, map[], b, h)
    ensures Height(ops, map[], a, h + 1) && Denote(ops, map[], a, h + 1) == Denote(ops, map[], b, h)
  {
    var xs := Operands(ops[a]);
    assert xs == [b] && Height(ops, map[], a, h + 1);
    var vals := seq(|xs|, i requires 0 <= i < |xs| => Denote(ops, map[], xs[i], h));
    assert vals == [Denote(ops, map[], b, h)];
    assert Denote(ops, map[], a, h + 1) == Reduce(ops[a], vals);
  }

  /** An operation with one operand passes its value on. */
  lemma OneOperand(ops: Ops, a: string, b: string, cache: Env, depth: nat)
    requires a in ops && ops[a] == And([b]) && a !in cache && depth <= DEPTH
    ensures var r := Eval(ops, b, map[], cache, depth + 1);
            Eval(ops, a, map[], cache, depth) == (r.0, r.1[a := r.0])
  {
    var r := Eval(ops, b, map[], cache, depth + 1);
    assert [b][..0] == [];
    assert EvalAll(ops, [], map[], cache, depth + 1) == ([], cache);
    assert EvalAll(ops, [b], map[], cache, depth + 1) == ([] + [r.0], r.1);
  }

  /** From a cache that knows no link from `i` on, the program finds 1 exactly when the constant is within depth. */
  lemma {:induction false} ChainEval(len: nat, i: nat, cache: Env, depth: nat)
    requires i <= len && depth <= DEPTH + 1
    requires forall k :: i <= k <= len ==> Link(k) !in cache
    ensures var r := Eval(Chain(len), Link(i), map[], cache, depth);
            && r.0 == (if depth + (len - i) <= DEPTH then 1 else 0)
            && forall k :: i <= k <= len && depth + (k - i) <= DEPTH ==> Link(k) in r.1 && r.1[Link(k)] == r.0
    ensures forall j :: 0 <= j < i && Link(j) !in cache ==> Link(j) !in Eval(Chain(len), Link(i), map[], cache, depth).1
    decreases len - i
  {
    ChainAt(len, i);
    assert forall j :: 0 <= j < i ==> |Link(j)| != |Link(i)|;
    if depth <= DEPTH && i < len {
      ChainEval(len, i + 1, cache, depth + 1);
      assert Link(i) !in cache;
      assert forall k :: i < k <= len ==> |Link(k)| != |Link(i)|;
      hide Chain, Link, Eval;
      OneOperand(Chain(len), Link(i), Link(i + 1), cache, depth);
    }
  }

  /** The bound on the height is exact: from an empty cache a chain evaluates to its plain value if and only if it
      is no longer than the limit. */
  lemma DepthLimitIsExact(len: nat)
    ensures Means(Chain(len), map[], Link(0), 1)
    ensures Means(Chain(len), map[], Link(0), Eval(Chain(len), Link(0), map[], map[], 0).0) <==> len <= 100
  {
    ChainDenotesOne(len, 0);
    ChainEval(len, 0, map[], 0);
    if len > DEPTH && Means(Chain(len), map[], Link(0), 0) {
      MeansUnique(Chain(len), map[], Link(0), 0, 1);
    }
  }

  /** One step above the limit the order of the registers matters: the truncated evaluation leaves wrong values in
      the shared cache, while a cache filled from below gives the right ones. */
  lemma OrderMattersBeyondTheLimit()
    ensures var ops := Chain(DEPTH + 1);
            && EvalAll(ops, [Link(0), Link(1)], map[], map[], 0).0 == [0, 0]
            && EvalAll(ops, [Link(1), Link(0)], map[], map[], 0).0 == [1, 1]
  {
    hide Eval, EvalAll;
    ChainEval(DEPTH + 1, 0, map[], 0);
    ChainEval(DEPTH + 1, 1, map[], 0);
    ChainAt(DEPTH + 1, 0);
    TwoOrders(Chain(DEPTH + 1), Link(0), Link(1));
  }

  lemma TwoOrders(ops: Ops, a: string, b: string)
    requires a in ops && ops[a] == And([b])
    requires var r := Eval(ops, a, map[], map[], 0); r.0 == 0 && b in r.1 && r.1[b] == 0
    requires var r := Eval(ops, b, map[], map[], 0); r.0 == 1 && b in r.1 && r.1[b] == 1 && a !in r.1
    ensures EvalAll(ops, [a, b], map[], map[], 0).0 == [0, 0] && EvalAll(ops, [b, a], map[], map[], 0).0 == [1, 1]
  {
    hide EvalAll, EvalOp;
    TwoNames(ops, a, b);
    TwoNames(ops, b, a);
    OneOperand(ops, a, b, Eval(ops, b, map[], map[], 0).1, 0);
  }

  lemma TwoNames(ops: Ops, a: string, b: string)
    ensures var x := Eval(ops, a, map[], map[], 0);
            EvalAll(ops, [a, b], map[], map[], 0).0 == [x.0, Eval(ops, b, map[], x.1, 0).0]
  {
    hide Eval;
    assert [a, b][..1] == [a] && [a][..0] == [];
    assert EvalAll(ops, [], map[], map[], 0) == ([], map[]);
    assert EvalAll(ops, [a], map[], map[], 0) ==
        ([] + [Eval(ops, a, map[], map[], 0).0], Eval(ops, a, map[], map[], 0).1);
  }
}
