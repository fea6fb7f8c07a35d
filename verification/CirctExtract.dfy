/**
 `extract_reactive_system` of `crates/mununu-extract/src/circt.rs` and `tools/circt_extract.py`: from registers
 and SSA operations to an explicit transition system, by enumerating the product of the register domains,
 evaluating and wrapping each register's next value, and pruning what is not reachable from reset.
 */
module CirctExtract {

  import opened Arith
  import opened Basics
  import opened CirctEval

  datatype Reg = Reg(name: string, next: string, reset: string, width: nat)

  datatype Design = Design(ops: Ops, registers: seq<Reg>, inputs: seq<string>)

  type State = seq<int>

  // ---- register domains and wrapping ---------------------------------------------------------------------------

  /** The values a register ranges over: two's complement up to 4 bits, `{0, 1}` above. */
  function Low(w: nat): int { if w <= 4 then -(Pow2(w) / 2) else 0 }

  function High(w: nat): int { if w <= 4 then Pow2(w) / 2 - 1 else 1 }

  predicate InDomain(w: nat, v: int) { Low(w) <= v <= High(w) }

  function Wrap(w: nat, v: int): int {
    if InDomain(w, v) then v
    else (v + Pow2(w) / 2) % Pow2(w) - Pow2(w) / 2
  }

  predicate Congruent(n: nat, a: int, b: int)
    requires n > 0
  {
    a % n == b % n
  }

  /** Every wrapped value is congruent to the value and lies in the two's-complement range of its width. */
  lemma WrapIsTwosComplement(w: nat, v: int)
    requires w >= 1
    ensures Congruent(Pow2(w), Wrap(w, v), v)
    ensures -(Pow2(w) / 2) <= Wrap(w, v) < Pow2(w) / 2
  {
    var n, h := Pow2(w), Pow2(w) / 2;
    assert n == 2 * h;
    if InDomain(w, v) {
      SmallDomainInRange(w);
    } else {
      hide Pow2, InDomain;
      DivMod(v + h, n);
      ModShift(Wrap(w, v), (v + h) / n, n);
    }
  }

  lemma SmallDomainInRange(w: nat)
    requires w >= 1
    ensures -(Pow2(w) / 2) <= Low(w) && High(w) < Pow2(w) / 2
  {
    if w > 4 {
      Pow2Monotone(5, w);
      assert Pow2(5) == 32;
    }
  }

  lemma ModShift(u: int, q: int, n: nat)
    requires n > 0
    ensures (u + q * n) % n == u % n
  {
    DivMod(u, n);
    MulSub(q, -(u / n), n);
    ModIs(u + q * n, n, q + u / n, u % n);
  }

  /** A wide register's domain is `{0, 1}` but its wrapping keeps 2. */
  lemma TwoEscapes(w: nat)
    requires w > 4
    ensures Wrap(w, 2) == 2 && !InDomain(w, 2)
  {
    Pow2Monotone(5, w);
    assert Pow2(5) == 32;
    var n := Pow2(w);
    hide Pow2;
    ModIs(2 + n / 2, n, 0, 2 + n / 2);
  }

  /** Wrapping stays inside the enumerated domain, whatever the value, exactly for widths 1 to 4. */
  lemma DomainClosedExactly(w: nat)
    ensures (forall v :: InDomain(w, Wrap(w, v))) <==> 1 <= w <= 4
  {
    if 1 <= w <= 4 {
      forall v ensures InDomain(w, Wrap(w, v)) {
        WrapIsTwosComplement(w, v);
      }
    } else if w == 0 {
      assert !InDomain(0, Wrap(0, 0));
    } else {
      assert !InDomain(w, Wrap(w, 2)) by { TwoEscapes(w); }
    }
  }

  /** The values in order, as the enumeration lists them. */
  function Values(w: nat): seq<I64>
  {
    DomainSmall(w);
    if High(w) < Low(w) then [] else seq(High(w) - Low(w) + 1, i requires 0 <= i < High(w) - Low(w) + 1 => Low(w) + i)
  }

  lemma DomainSmall(w: nat)
    ensures -8 <= Low(w) <= 0 && -1 <= High(w) <= 7
  {
    if w <= 4 {
      Pow2Monotone(w, 4);
      assert Pow2(4) == 16;
    }
  }

  lemma ValuesAreDomain(w: nat)
    ensures forall v :: v in Values(w) <==> InDomain(w, v)
    ensures Distinct(Values(w))
  {
    DomainSmall(w);
    forall v | InDomain(w, v) ensures v in Values(w) {
      assert Values(w)[v - Low(w)] == v;
    }
  }

  // ---- the product ------------------------------------------------------------------------------------------------

  function ExtendOne(s: seq<I64>, values: seq<I64>): seq<seq<I64>> {
    seq(|values|, i requires 0 <= i < |values| => s + [values[i]])
  }

  function Extend(states: seq<seq<I64>>, values: seq<I64>): seq<seq<I64>> {
    if states == [] then []
    else Extend(states[..|states| - 1], values) + ExtendOne(states[|states| - 1], values)
  }

  function Product(domains: seq<seq<I64>>): seq<seq<I64>> {
    if domains == [] then [[]] else Extend(Product(domains[..|domains| - 1]), domains[|domains| - 1])
  }

  method EnumerateProduct(domains: seq<seq<I64>>) returns (states: seq<seq<I64>>)
    ensures states == Product(domains)
  {
    states := [[]];
    for k := 0 to |domains|
      invariant states == Product(domains[..k])
    {
      var values, grown := domains[k], [];
      for i := 0 to |states|
        invariant grown == Extend(states[..i], values)
      {
        ghost var before := grown;
        for j := 0 to |values|
          invariant grown == before + ExtendOne(states[i], values[..j])
        {
          grown := grown + [states[i] + [values[j]]];
        }
        assert values[..|values|] == values && states[..i + 1][..i] == states[..i];
      }
      assert states[..|states|] == states && domains[..k + 1][..k] == domains[..k];
      states := grown;
    }
    assert domains[..|domains|] == domains;
  }

  predicate Within(s: seq<I64>, domains: seq<seq<I64>>) {
    |s| == |domains| && forall i :: 0 <= i < |s| ==> s[i] in domains[i]
  }

  lemma {:induction false} ExtendMembers(states: seq<seq<I64>>, values: seq<I64>, t: seq<I64>)
    ensures t in Extend(states, values) <==> t != [] && t[..|t| - 1] in states && t[|t| - 1] in values
  {
    if states != [] {
      var init, s := states[..|states| - 1], states[|states| - 1];
      ExtendMembers(init, values, t);
      assert states == init + [s];
      if t != [] && t[..|t| - 1] == s && t[|t| - 1] in values {
        var i :| 0 <= i < |values| && values[i] == t[|t| - 1];
        assert ExtendOne(s, values)[i] == t;
      }
      if t in ExtendOne(s, values) {
        var i :| 0 <= i < |values| && ExtendOne(s, values)[i] == t;
        assert t == s + [values[i]];
      }
    }
  }

  lemma WithinSnoc(s: seq<I64>, domains: seq<seq<I64>>, v: I64, values: seq<I64>)
    ensures Within(s + [v], domains + [values]) <==> Within(s, domains) && v in values
  {
    var t, ds := s + [v], domains + [values];
    if |s| == |domains| {
      assert t[|s|] == v && ds[|s|] == values;
      assert forall i :: 0 <= i < |s| ==> t[i] == s[i] && ds[i] == domains[i];
    }
  }

  /** The product lists exactly the combinations of domain values. */
  lemma {:induction false} ProductMembers(domains: seq<seq<I64>>, t: seq<I64>)
    ensures t in Product(domains) <==> Within(t, domains)
  {
    if domains == [] {
      assert t in Product(domains) <==> t == [];
    } else {
      var init, values := domains[..|domains| - 1], domains[|domains| - 1];
      ExtendMembers(Product(init), values, t);
      if t != [] {
        var front := t[..|t| - 1];
        assert t == front + [t[|t| - 1]] && domains == init + [values];
        hide Product, Extend, Within;
        ProductMembers(init, front);
        WithinSnoc(front, init, t[|t| - 1], values);
      }
    }
  }

  lemma {:induction false} ExtendDistinct(states: seq<seq<I64>>, values: seq<I64>)
    requires Distinct(states) && Distinct(values)
    ensures Distinct(Extend(states, values))
  {
    if states != [] {
      var init, s := states[..|states| - 1], states[|states| - 1];
      ExtendDistinct(init, values);
      var a, b := Extend(init, values), ExtendOne(s, values);
      forall i, j | 0 <= i < |a| && 0 <= j < |b| ensures a[i] != b[j] {
        ExtendMembers(init, values, a[i]);
        assert b[j] == s + [values[j]];
        assert b[j][..|b[j]| - 1] == s;
        assert s !in init;
      }
      forall i, j | 0 <= i < j < |b| ensures b[i] != b[j] {
        assert b[i][|s|] == values[i] && b[j][|s|] == values[j];
      }
    }
  }

  /** ... each of them once. */
  lemma {:induction false} ProductDistinct(domains: seq<seq<I64>>)
    requires forall i :: 0 <= i < |domains| ==> Distinct(domains[i])
    ensures Distinct(Product(domains))
  {
    if domains != [] {
      ProductDistinct(domains[..|domains| - 1]);
      ExtendDistinct(Product(domains[..|domains| - 1]), domains[|domains| - 1]);
    }
  }

  // ---- one step ---------------------------------------------------------------------------------------------------

  function Bind(env: Env, names: seq<string>, vals: seq<I64>): Env
    requires |names| == |vals|
  {
    if names == [] then env
    else Bind(env, names[..|names| - 1], vals[..|names| - 1])[names[|names| - 1] := vals[|names| - 1]]
  }

  function RegNames(d: Design): (r: seq<string>)
    ensures |r| == |d.registers|
  {
    seq(|d.registers|, i requires 0 <= i < |d.registers| => d.registers[i].name)
  }

  function Nexts(d: Design): (r: seq<string>)
    ensures |r| == |d.registers|
  {
    seq(|d.registers|, i requires 0 <= i < |d.registers| => d.registers[i].next)
  }

  function IsData(name: string): bool { name != "clk" && name != "rst" }

  function DataInputs(inputs: seq<string>): seq<string> {
    if inputs == [] then []
    else DataInputs(inputs[..|inputs| - 1]) + if IsData(inputs[|inputs| - 1]) then [inputs[|inputs| - 1]] else []
  }

  function RegDomains(d: Design): (r: seq<seq<I64>>)
    ensures |r| == |d.registers|
  {
    seq(|d.registers|, i requires 0 <= i < |d.registers| => Values(d.registers[i].width))
  }

  function InputDomains(d: Design): (r: seq<seq<I64>>)
    ensures |r| == |DataInputs(d.inputs)|
  {
    seq(|DataInputs(d.inputs)|, i => [0, 1])
  }

  function EnvOf(d: Design, s: seq<I64>, input: seq<I64>): Env
    requires |s| == |d.registers| && |input| == |DataInputs(d.inputs)|
  {
    Bind(Bind(map[], RegNames(d), s), DataInputs(d.inputs), input)
  }

  /** The successor: every register's next name evaluated with one cache, then wrapped. */
  function Next(d: Design, s: seq<I64>, input: seq<I64>): (t: State)
    requires |s| == |d.registers| && |input| == |DataInputs(d.inputs)|
    ensures |t| == |d.registers|
  {
    var vals := EvalAll(d.ops, Nexts(d), EnvOf(d, s, input), map[], 0).0;
    seq(|d.registers|, i requires 0 <= i < |d.registers| => Wrap(d.registers[i].width, vals[i]))
  }

  function ResetValue(ops: Ops, name: string): I64 {
    if name in ops && ops[name].Constant? then ParseConstant(ops[name].value) else 0
  }

  function Initial(d: Design): (t: State)
    ensures |t| == |d.registers|
  {
    seq(|d.registers|, i requires 0 <= i < |d.registers| => ResetValue(d.ops, d.registers[i].reset))
  }

  /** On acyclic operations within the depth limit the successor is the wrapped plain value of every register. */
  lemma NextIsDenoted(d: Design, s: seq<I64>, input: seq<I64>)
    requires |s| == |d.registers| && |input| == |DataInputs(d.inputs)|
    requires forall i :: 0 <= i < |d.registers| ==> Height(d.ops, EnvOf(d, s, input), d.registers[i].next, DEPTH)
    ensures forall i :: 0 <= i < |d.registers| ==>
              Next(d, s, input)[i] ==
                  Wrap(d.registers[i].width, Denote(d.ops, EnvOf(d, s, input), d.registers[i].next, DEPTH))
  {
    hide EvalAll, Denote, Height, Wrap;
    SharedCacheIsHarmless(d.ops, Nexts(d), EnvOf(d, s, input));
  }

  method BuildEnv(env: Env, names: seq<string>, vals: seq<I64>) returns (r: Env)
    requires |names| == |vals|
    ensures r == Bind(env, names, vals)
  {
    r := env;
    for i := 0 to |names|
      invariant r == Bind(env, names[..i], vals[..i])
    {
      assert names[..i + 1][..i] == names[..i] && vals[..i + 1][..i] == vals[..i];
      r := r[names[i] := vals[i]];
    }
    assert names[..|names|] == names && vals[..|vals|] == vals;
  }

  method Successor(d: Design, s: seq<I64>, input: seq<I64>) returns (t: State)
    requires |s| == |d.registers| && |input| == |DataInputs(d.inputs)|
    ensures t == Next(d, s, input)
  {
    hide Eval, Wrap, Bind, DataInputs;
    var env := BuildEnv(map[], RegNames(d), s);
    env := BuildEnv(env, DataInputs(d.inputs), input);
    var e := new Evaluator(d.ops, env);
    ghost var nexts, vals := Nexts(d), [];
    t := [];
    for i := 0 to |d.registers|
      invariant e.ops == d.ops && e.env == env
      invariant (vals, e.cache) == EvalAll(d.ops, nexts[..i], env, map[], 0)
      invariant |t| == i && forall k :: 0 <= k < i ==> t[k] == Wrap(d.registers[k].width, vals[k])
    {
      var reg := d.registers[i];
      var nv := e.Evaluate(reg.next, 0);
      assert nexts[..i + 1][..i] == nexts[..i];
      vals := vals + [nv];
      t := t + [Wrap(reg.width, nv)];
    }
    assert nexts[..|nexts|] == nexts;
  }
}
