/**
 The BTOR2 fragment the circuit generators emit, its word-level meaning as a transition system, and
 the line emitter.

 A listing is a sequence of lines; the line at index `i` has id `i + 1`.  An operand is an id, and a
 negative operand is the bitwise complement of the line it names (Niemetz, Preiner, Wolf and Biere,
 CAV 2018, section 2).
 */
module Btor {
  import opened Arith

  datatype Literal = Zero | One | Constd(n: nat)

  datatype BinOp = Eq | And | Or | Add

  datatype Line =
    | Sort(width: nat)
    | Input(sort: int, symbol: string)
    | State(sort: int, symbol: string)
    | Const(sort: int, literal: Literal)
    | Init(sort: int, state: int, value: int)
    | Next(sort: int, state: int, value: int)
    | Not(sort: int, a: int)
    | Bin(op: BinOp, sort: int, a: int, b: int)
    | Ite(sort: int, c: int, t: int, e: int)
    | Bad(signal: int)
  {
    /** The line denotes a value other lines may read. */
    predicate IsValue() {
      !Sort? && !Init? && !Next? && !Bad?
    }
  }

  type Listing = seq<Line>

  /** A value for every state and input line, by id. */
  type Env = int -> nat

  predicate At(ls: Listing, id: int, line: Line) {
    1 <= id <= |ls| && ls[id - 1] == line
  }

  /** The width of the value line named by `id`, 0 when there is none. */
  function Width(ls: Listing, id: int): nat {
    if 1 <= Abs(id) <= |ls| && ls[Abs(id) - 1].IsValue() then SortWidth(ls, ls[Abs(id) - 1].sort) else 0
  }

  function SortWidth(ls: Listing, id: int): nat {
    if 1 <= id <= |ls| && ls[id - 1].Sort? then ls[id - 1].width else 0
  }

  /** `id` names one of the first `bound` lines, which denotes a value `w` bits wide. */
  predicate Operand(ls: Listing, bound: nat, id: int, w: nat) {
    1 <= Abs(id) <= bound && w >= 1 && Width(ls, id) == w
  }

  /** No line before index `bound` gives `state` its next value. */
  predicate NoNext(ls: Listing, bound: nat, state: int) {
    forall j :: 0 <= j < bound && j < |ls| && ls[j].Next? ==> ls[j].state != state
  }

  /** The line at index `i` is well sorted, every id it uses names an earlier line, and it is the
      first to give its state a next value. */
  predicate LineOk(ls: Listing, i: nat)
    requires i < |ls|
  {
    if ls[i].Sort? then ls[i].width >= 1
    else if ls[i].Bad? then Operand(ls, i, ls[i].signal, 1)
    else ls[i].sort <= i && SortWidth(ls, ls[i].sort) >= 1 && ArgsOk(ls, i, SortWidth(ls, ls[i].sort))
  }

  predicate ArgsOk(ls: Listing, i: nat, w: nat)
    requires i < |ls|
  {
    var line := ls[i];
    && (line.Const? && line.literal.Constd? ==> line.literal.n < Pow2(w))
    && (line.Init? ==> StateLine(ls, i, line.state, w) && Operand(ls, i, line.value, w))
    && (line.Next? ==> StateLine(ls, i, line.state, w) && Operand(ls, i, line.value, w) && NoNext(ls, i, line.state))
    && (line.Not? ==> Operand(ls, i, line.a, w))
    && (line.Bin? && !line.op.Eq? ==> Operand(ls, i, line.a, w) && Operand(ls, i, line.b, w))
    && (line.Bin? && line.op.Eq? ==>
          w == 1 && Operand(ls, i, line.a, Width(ls, line.a)) && Operand(ls, i, line.b, Width(ls, line.a)))
    && (line.Ite? ==> Operand(ls, i, line.c, 1) && Operand(ls, i, line.t, w) && Operand(ls, i, line.e, w))
  }

  predicate StateLine(ls: Listing, bound: nat, id: int, w: nat) {
    id > 0 && Operand(ls, bound, id, w) && ls[id - 1].State?
  }

  ghost predicate WellFormed(ls: Listing) {
    forall i :: 0 <= i < |ls| ==> LineOk(ls, i)
  }

  /** The lines from index `lo` to `hi` are well formed. */
  ghost predicate LinesOk(ls: Listing, lo: nat, hi: nat)
    requires hi <= |ls|
  {
    forall i :: lo <= i < hi ==> LineOk(ls, i)
  }

  // ---- meaning -------------------------------------------------------------------------------

  /** The value an operand reads from the values `vs` of the first lines. */
  function Read(ls: Listing, vs: seq<nat>, id: int): nat {
    if !(1 <= Abs(id) <= |vs|) then 0
    else if id > 0 then vs[id - 1]
    else Complement(Width(ls, id), vs[-id - 1])
  }

  /** The value of the line at index `i`, its operands read from `vs`. */
  function LineVal(ls: Listing, env: Env, i: nat, vs: seq<nat>): nat
    requires i < |ls|
  {
    match ls[i]
    case Const(_, literal) => LiteralVal(literal)
    case Not(_, a) => Complement(Width(ls, i + 1), Read(ls, vs, a))
    case Bin(op, _, a, b) => Apply(op, Width(ls, i + 1), Read(ls, vs, a), Read(ls, vs, b))
    case Ite(_, c, t, e) => if Read(ls, vs, c) != 0 then Read(ls, vs, t) else Read(ls, vs, e)
    case _ => env(i + 1)
  }

  /** The values of the first `n` lines, each computed from the ones before it. */
  function Values(ls: Listing, env: Env, n: nat): (vs: seq<nat>)
    requires n <= |ls|
    ensures |vs| == n
  {
    if n == 0 then [] else
    var vs := Values(ls, env, n - 1);
    vs + [LineVal(ls, env, n - 1, vs)]
  }

  /** The value of an operand under the state and input values `env`. */
  function Val(ls: Listing, env: Env, id: int): nat {
    Read(ls, Values(ls, env, |ls|), id)
  }

  function LiteralVal(literal: Literal): nat {
    match literal
    case Zero => 0
    case One => 1
    case Constd(n) => n
  }

  function Complement(w: nat, x: nat): nat {
    (Pow2(w) - 1 - x) % Pow2(w)
  }

  function Apply(op: BinOp, w: nat, x: nat, y: nat): nat {
    match op
    case Eq => if x == y then 1 else 0
    case And => BitAnd(w, x, y)
    case Or => BitOr(w, x, y)
    case Add => (x + y) % Pow2(w)
  }

  function BitAnd(w: nat, x: nat, y: nat): nat
    decreases w
  {
    if w == 0 then 0 else (if x % 2 == 1 && y % 2 == 1 then 1 else 0) + 2 * BitAnd(w - 1, x / 2, y / 2)
  }

  function BitOr(w: nat, x: nat, y: nat): nat
    decreases w
  {
    if w == 0 then 0 else (if x % 2 == 1 || y % 2 == 1 then 1 else 0) + 2 * BitOr(w - 1, x / 2, y / 2)
  }

  /** `env` gives every state and input a value its sort admits. */
  ghost predicate Valuation(ls: Listing, env: Env) {
    forall i :: 0 <= i < |ls| && (ls[i].State? || ls[i].Input?) ==> env(i + 1) < Pow2(SortWidth(ls, ls[i].sort))
  }

  ghost predicate Initial(ls: Listing, env: Env) {
    && Valuation(ls, env)
    && forall i :: 0 <= i < |ls| && ls[i].Init? ==> env(ls[i].state) == Val(ls, env, ls[i].value)
  }

  /** One clock edge: every state with a next-state line takes its value; inputs and states without
      one are free. */
  ghost predicate Edge(ls: Listing, env: Env, env': Env) {
    && Valuation(ls, env) && Valuation(ls, env')
    && forall i :: 0 <= i < |ls| && ls[i].Next? ==> env'(ls[i].state) == Val(ls, env, ls[i].value)
  }

  /** Some `bad` line's signal is on. */
  ghost predicate BadAt(ls: Listing, env: Env) {
    exists i :: 0 <= i < |ls| && ls[i].Bad? && Val(ls, env, ls[i].signal) != 0
  }

  /** A run: valuations linked by clock edges. */
  ghost predicate Run(ls: Listing, run: seq<Env>) {
    && |run| >= 1
    && Valuation(ls, run[0])
    && forall i :: 0 <= i < |run| - 1 ==> Edge(ls, run[i], run[i + 1])
  }

  // ---- facts about the meaning -----------------------------------------------------------------

  lemma {:induction false} BitOpsBound(w: nat, x: nat, y: nat)
    ensures BitAnd(w, x, y) < Pow2(w) && BitOr(w, x, y) < Pow2(w)
    decreases w
  {
    if w > 0 {
      BitOpsBound(w - 1, x / 2, y / 2);
    }
  }

  lemma {:induction false} ValuesPrefix(ls: Listing, env: Env, n: nat, m: nat)
    requires n <= m <= |ls|
    ensures Values(ls, env, m)[..n] == Values(ls, env, n)
  {
    if n < m {
      ValuesPrefix(ls, env, n, m - 1);
    }
  }

  /** A line's value, in terms of the values of its operands. */
  lemma Meaning(ls: Listing, env: Env, i: nat)
    requires i < |ls| && LineOk(ls, i)
    ensures Val(ls, env, i + 1) == LineVal(ls, env, i, Values(ls, env, |ls|))
  {
    var vs := Values(ls, env, |ls|);
    ValuesPrefix(ls, env, i + 1, |ls|);
    ValuesPrefix(ls, env, i, |ls|);
    assert vs[i] == vs[..i + 1][i] == LineVal(ls, env, i, vs[..i]);
    assert forall id :: 1 <= Abs(id) <= i ==> Read(ls, vs[..i], id) == Read(ls, vs, id);
  }

  /** A value always fits its sort. */
  lemma {:induction false} ValBound(ls: Listing, env: Env, id: int)
    requires WellFormed(ls) && Width(ls, id) >= 1 && Valuation(ls, env)
    ensures Val(ls, env, id) < Pow2(Width(ls, id))
    decreases Abs(id), if id < 0 then 1 else 0
  {
    assert LineOk(ls, Abs(id) - 1);
    if id > 0 {
      Meaning(ls, env, id - 1);
      hide Values, BitAnd, BitOr, NoNext;
      match ls[id - 1]
      case Bin(_, _, a, b) => BitOpsBound(Width(ls, id), Val(ls, env, a), Val(ls, env, b));
      case Ite(_, c, t, e) => ValBound(ls, env, t); ValBound(ls, env, e);
      case _ =>
    }
  }

  /** Ids keep their meaning when lines are appended. */
  lemma OperandKept(ls: Listing, ls': Listing)
    requires ls <= ls'
    ensures forall id {:trigger SortWidth(ls', id)} :: SortWidth(ls, id) >= 1 ==>
            SortWidth(ls', id) == SortWidth(ls, id)
    ensures forall id {:trigger Width(ls', id)} :: Width(ls, id) >= 1 ==> Width(ls', id) == Width(ls, id)
    ensures forall bound: nat, id, w: nat {:trigger Operand(ls', bound, id, w)} ::
              Operand(ls, bound, id, w) ==> Operand(ls', bound, id, w)
  {
  }

  lemma LineKept(ls: Listing, ls': Listing, i: nat)
    requires ls <= ls' && i < |ls| && LineOk(ls, i)
    ensures LineOk(ls', i)
  {
    OperandKept(ls, ls');
    assert ls'[i] == ls[i];
    if !ls[i].Sort? && !ls[i].Bad? {
      assert ArgsOk(ls', i, SortWidth(ls, ls[i].sort));
    }
  }

  /** A well-formed listing stays so when every appended line is. */
  lemma Extended(ls: Listing, ls': Listing, mid: nat)
    requires WellFormed(ls) && ls <= ls' && |ls| <= mid <= |ls'|
    requires LinesOk(ls', |ls|, mid) && LinesOk(ls', mid, |ls'|)
    ensures WellFormed(ls')
  {
    forall i | 0 <= i < |ls'| ensures LineOk(ls', i) {
      if i < |ls| {
        assert LineOk(ls, i);
        LineKept(ls, ls', i);
      }
    }
  }

  ghost predicate HasNext(ls: Listing, s: int) {
    exists i :: 0 <= i < |ls| && ls[i].Next? && ls[i].state == s
  }

  ghost function NextLine(ls: Listing, s: int): (i: nat)
    requires HasNext(ls, s)
    ensures i < |ls| && ls[i].Next? && ls[i].state == s
  {
    var i :| 0 <= i < |ls| && ls[i].Next? && ls[i].state == s;
    i
  }

  /** The next environment of an edge, with the inputs and the states without a next-state line
      taken from `free`. */
  ghost function NextEnv(ls: Listing, env: Env, free: Env): Env
  {
    s => if HasNext(ls, s) then Val(ls, env, ls[NextLine(ls, s)].value) else free(s)
  }

  /** Every valuation has an edge to a valuation with any chosen inputs: the transition relation is
      total and the inputs are free. */
  lemma NextEnvIsEdge(ls: Listing, env: Env, free: Env)
    requires WellFormed(ls) && Valuation(ls, env) && Valuation(ls, free)
    ensures Edge(ls, env, NextEnv(ls, env, free))
    ensures forall i :: 0 <= i < |ls| && ls[i].Input? ==> NextEnv(ls, env, free)(i + 1) == free(i + 1)
  {
    var env' := NextEnv(ls, env, free);
    forall i | 0 <= i < |ls| && ls[i].Next?
      ensures env'(ls[i].state) == Val(ls, env, ls[i].value)
    {
      UniqueNext(ls, env, free, i);
    }
    forall i | 0 <= i < |ls| && (ls[i].State? || ls[i].Input?)
      ensures env'(i + 1) < Pow2(SortWidth(ls, ls[i].sort)) && (ls[i].Input? ==> env'(i + 1) == free(i + 1))
    {
      NextEnvFits(ls, env, free, i);
    }
  }

  lemma NextEnvFits(ls: Listing, env: Env, free: Env, i: nat)
    requires WellFormed(ls) && Valuation(ls, env) && Valuation(ls, free)
    requires i < |ls| && (ls[i].State? || ls[i].Input?)
    ensures NextEnv(ls, env, free)(i + 1) < Pow2(SortWidth(ls, ls[i].sort))
    ensures ls[i].Input? ==> NextEnv(ls, env, free)(i + 1) == free(i + 1)
  {
    if HasNext(ls, i + 1) {
      var j := NextLine(ls, i + 1);
      assert LineOk(ls, j);
      ValBound(ls, env, ls[j].value);
    }
  }

  lemma UniqueNext(ls: Listing, env: Env, free: Env, i: nat)
    requires WellFormed(ls) && i < |ls| && ls[i].Next?
    ensures NextEnv(ls, env, free)(ls[i].state) == Val(ls, env, ls[i].value)
  {
    assert LineOk(ls, i);
    assert LineOk(ls, NextLine(ls, ls[i].state));
    assert NextLine(ls, ls[i].state) == i;
  }

  /** The meaning of one line, by its shape. */
  lemma IteVal(ls: Listing, env: Env, id: int)
    requires WellFormed(ls) && 1 <= id <= |ls| && ls[id - 1].Ite?
    ensures var line := ls[id - 1];
            Val(ls, env, id) == if Val(ls, env, line.c) != 0 then Val(ls, env, line.t) else Val(ls, env, line.e)
  {
    assert LineOk(ls, id - 1);
    Meaning(ls, env, id - 1);
  }

  lemma BinVal(ls: Listing, env: Env, id: int)
    requires WellFormed(ls) && 1 <= id <= |ls| && ls[id - 1].Bin?
    ensures var line := ls[id - 1];
            Val(ls, env, id) == Apply(line.op, Width(ls, id), Val(ls, env, line.a), Val(ls, env, line.b))
  {
    assert LineOk(ls, id - 1);
    Meaning(ls, env, id - 1);
  }

  lemma LeafVal(ls: Listing, env: Env, id: int)
    requires WellFormed(ls) && 1 <= id <= |ls|
    ensures ls[id - 1].State? || ls[id - 1].Input? ==> Val(ls, env, id) == env(id)
    ensures ls[id - 1].Const? ==> Val(ls, env, id) == LiteralVal(ls[id - 1].literal)
  {
    assert LineOk(ls, id - 1);
    Meaning(ls, env, id - 1);
  }

  lemma NotVal(ls: Listing, env: Env, id: int)
    requires WellFormed(ls) && 1 <= id <= |ls| && ls[id - 1].Not?
    ensures Val(ls, env, id) == Complement(Width(ls, id), Val(ls, env, ls[id - 1].a))
  {
    assert LineOk(ls, id - 1);
    Meaning(ls, env, id - 1);
  }

  /** Bitwise operators on one bit. */
  lemma OneBit(x: nat, y: nat)
    requires x < 2 && y < 2
    ensures BitAnd(1, x, y) == (if x == 1 && y == 1 then 1 else 0)
    ensures BitOr(1, x, y) == (if x == 1 || y == 1 then 1 else 0)
  {
    assert BitAnd(0, x / 2, y / 2) == 0 && BitOr(0, x / 2, y / 2) == 0;
  }

  /** The run from `env` whose inputs after each edge are those of `frees`. */
  ghost function Driven(ls: Listing, env: Env, frees: seq<Env>): (run: seq<Env>)
    ensures |run| == |frees| + 1 && run[0] == env
  {
    if frees == [] then [env] else
    var run := Driven(ls, env, frees[..|frees| - 1]);
    run + [NextEnv(ls, run[|frees| - 1], frees[|frees| - 1])]
  }

  /** Any valuation starts a run under any sequence of inputs. */
  lemma {:induction false} DrivenRun(ls: Listing, env: Env, frees: seq<Env>)
    requires WellFormed(ls) && Valuation(ls, env) && forall k :: 0 <= k < |frees| ==> Valuation(ls, frees[k])
    ensures Run(ls, Driven(ls, env, frees))
    ensures forall k :: 0 <= k <= |frees| ==> Valuation(ls, Driven(ls, env, frees)[k])
    ensures forall k, i :: 0 <= k < |frees| && 0 <= i < |ls| && ls[i].Input? ==>
              Driven(ls, env, frees)[k + 1](i + 1) == frees[k](i + 1)
  {
    hide Valuation;
    if frees != [] {
      var n := |frees| - 1;
      DrivenRun(ls, env, frees[..n]);
      NextEnvIsEdge(ls, Driven(ls, env, frees[..n])[n], frees[n]);
    }
  }

  /** The value of one input after the edge `k` of a driven run. */
  lemma DrivenInput(ls: Listing, env: Env, frees: seq<Env>, k: nat, id: int)
    requires WellFormed(ls) && Valuation(ls, env) && forall j :: 0 <= j < |frees| ==> Valuation(ls, frees[j])
    requires k < |frees| && 1 <= id <= |ls| && ls[id - 1].Input?
    ensures Driven(ls, env, frees)[k + 1](id) == frees[k](id)
  {
    hide Valuation, Driven, Run, WellFormed;
    DrivenRun(ls, env, frees);
    assert Driven(ls, env, frees)[k + 1](id - 1 + 1) == frees[k](id - 1 + 1);
  }

  /** From any values that fit, any inputs drive a run: `make` gives the values for each of them, and the lines `ids`
      are the inputs. */
  lemma Drive<T(!new)>(ls: Listing, ids: seq<int>, make: T -> Env, ins: seq<T>) returns (run: seq<Env>)
    requires WellFormed(ls) && ins != [] && forall i :: Valuation(ls, make(i))
    requires forall id :: id in ids ==> 1 <= id <= |ls| && ls[id - 1].Input?
    ensures Run(ls, run) && |run| == |ins| && run[0] == make(ins[0])
    ensures forall k, id :: 0 <= k < |ins| && id in ids ==> run[k](id) == make(ins[k])(id)
  {
    var env, frees := make(ins[0]), seq(|ins| - 1, j requires 0 <= j < |ins| - 1 => make(ins[j + 1]));
    assert forall j :: 0 <= j < |frees| ==> frees[j] == make(ins[j + 1]);
    hide Valuation, Driven, Run, WellFormed;
    assert forall j :: 0 <= j < |frees| ==> Valuation(ls, frees[j]);
    run := Driven(ls, env, frees);
    DrivenRun(ls, env, frees);
    forall k, id | 0 < k < |ins| && id in ids ensures run[k](id) == make(ins[k])(id) {
      DrivenInput(ls, env, frees, k - 1, id);
    }
  }

  // ---- the emitter -----------------------------------------------------------------------------

  /** `ls'` is `ls` with `line` appended. */
  predicate Extends(ls: Listing, ls': Listing, line: Line) {
    ls <= ls' && |ls'| == |ls| + 1 && At(ls', |ls'|, line)
  }

  /** Sequential line ids: the id of a line is its position in the listing. */
  class Emitter {
    var lines: Listing

    constructor ()
      ensures lines == []
    {
      lines := [];
    }

    method N(line: Line) returns (id: int)
      modifies this
      ensures Extends(old(lines), lines, line)
      ensures id == |lines|
    {
      lines := lines + [line];
      id := |lines|;
    }
  }
}
