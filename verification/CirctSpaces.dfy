/**
 What `extract_reactive_system` enumerates and evaluates in: the values of the registers and inputs, their product and
 its order, the environment of one step, and the reset state.
 */
module CirctSpaces {
  import opened Arith
  import opened Basics
  import opened CirctEval
  import opened CirctOps
  import opened CirctExtract

  // ---- the values of one register or input ------------------------------------------------------------------------

  /** A register of 1 to 4 bits ranges over all values of its width, 2^w of them; a wider one over 0 and 1. */
  lemma DomainIs(w: nat)
    requires w >= 1
    ensures forall v :: v in Values(w) <==> if w <= 4 then Signed(w, v) else v == 0 || v == 1
    ensures |Values(w)| == if w <= 4 then Pow2(w) else 2
    ensures forall i, j :: 0 <= i < j < |Values(w)| ==> Values(w)[i] < Values(w)[j]
  {
    ValuesAreDomain(w);
    DomainSmall(w);
    assert Pow2(w) == 2 * Pow2(w - 1);
    if w <= 4 {
      SmallPowers(w);
    }
  }

  lemma SmallPowers(w: nat)
    requires 1 <= w <= 4
    ensures Pow2(w) in {2, 4, 8, 16}
  {
    assert Pow2(1) == 2 && Pow2(2) == 4 && Pow2(3) == 8 && Pow2(4) == 16;
  }

  /** The inputs that are enumerated: all but the clock and the reset, in the order of the ports. */
  lemma {:induction false} DataInputsExactly(inputs: seq<string>) returns (at: seq<nat>)
    ensures Picks(inputs, at, DataInputs(inputs))
    ensures forall i :: 0 <= i < |inputs| ==> (i in at <==> inputs[i] != "clk" && inputs[i] != "rst")
  {
    if inputs == [] {
      at := [];
    } else {
      var n := |inputs| - 1;
      var init := inputs[..n];
      at := DataInputsExactly(init);
      assert inputs == init + [inputs[n]];
      PicksKept(init, at, DataInputs(init), inputs[n]);
      PicksLast(init, at, DataInputs(init), inputs[n]);
      if inputs[n] != "clk" && inputs[n] != "rst" {
        at := at + [n];
      } else {
        assert DataInputs(inputs) == DataInputs(init);
      }
    }
  }

  // ---- the product ------------------------------------------------------------------------------------------------

  function SizeOf(domains: seq<seq<I64>>): nat {
    if domains == [] then 1 else SizeOf(domains[..|domains| - 1]) * |domains[|domains| - 1]|
  }

  lemma {:induction false} ExtendSize(states: seq<seq<I64>>, values: seq<I64>)
    ensures |Extend(states, values)| == |states| * |values|
  {
    if states != [] {
      ExtendSize(states[..|states| - 1], values);
      assert |states| * |values| == (|states| - 1) * |values| + |values|;
    }
  }

  lemma {:induction false} ProductSize(domains: seq<seq<I64>>)
    ensures |Product(domains)| == SizeOf(domains)
  {
    if domains != [] {
      ProductSize(domains[..|domains| - 1]);
      ExtendSize(Product(domains[..|domains| - 1]), domains[|domains| - 1]);
    }
  }

  /** In the order of the first value in which two combinations differ. */
  predicate LexLess(s: seq<I64>, t: seq<I64>) {
    exists k :: 0 <= k < |s| && k < |t| && s[..k] == t[..k] && s[k] < t[k]
  }

  predicate Lexical(states: seq<seq<I64>>) {
    forall i, j :: 0 <= i < j < |states| ==> LexLess(states[i], states[j])
  }

  predicate ValuesAscend(values: seq<I64>) {
    forall i, j :: 0 <= i < j < |values| ==> values[i] < values[j]
  }

  lemma LexExtends(s: seq<I64>, t: seq<I64>, a: I64, b: I64)
    requires LexLess(s, t)
    ensures LexLess(s + [a], t + [b])
  {
    var k :| 0 <= k < |s| && k < |t| && s[..k] == t[..k] && s[k] < t[k];
    assert (s + [a])[..k] == s[..k] && (t + [b])[..k] == t[..k];
  }

  lemma LexLast(s: seq<I64>, a: I64, b: I64)
    requires a < b
    ensures LexLess(s + [a], s + [b])
  {
    assert (s + [a])[..|s|] == (s + [b])[..|s|];
  }

  lemma {:induction false} ExtendLexical(states: seq<seq<I64>>, values: seq<I64>)
    requires Lexical(states) && ValuesAscend(values)
    ensures Lexical(Extend(states, values))
  {
    if states != [] {
      var n := |states| - 1;
      var init, last := Extend(states[..n], values), ExtendOne(states[n], values);
      ExtendLexical(states[..n], values);
      forall i, j | 0 <= i < j < |init + last| ensures LexLess((init + last)[i], (init + last)[j]) {
        if |init| <= i {
          LexLast(states[n], values[i - |init|], values[j - |init|]);
        } else if |init| <= j {
          ExtendMembers(states[..n], values, init[i]);
          var t := init[i];
          var k :| 0 <= k < n && states[k] == t[..|t| - 1];
          assert t == t[..|t| - 1] + [t[|t| - 1]];
          LexExtends(states[k], states[n], t[|t| - 1], values[j - |init|]);
        }
      }
    }
  }

  /** The product is listed with its last value changing fastest. */
  lemma {:induction false} ProductLexical(domains: seq<seq<I64>>)
    requires forall i :: 0 <= i < |domains| ==> ValuesAscend(domains[i])
    ensures Lexical(Product(domains))
  {
    if domains != [] {
      ProductLexical(domains[..|domains| - 1]);
      ExtendLexical(Product(domains[..|domains| - 1]), domains[|domains| - 1]);
    }
  }

  function WidthSum(regs: seq<Reg>): nat {
    if regs == [] then 0 else WidthSum(regs[..|regs| - 1]) + regs[|regs| - 1].width
  }

  /** Domains with all values of their widths: as many combinations as the bits together have values. */
  lemma {:induction false} NarrowSize(domains: seq<seq<I64>>, regs: seq<Reg>)
    requires |domains| == |regs| && forall i :: 0 <= i < |regs| ==> |domains[i]| == Pow2(regs[i].width)
    ensures SizeOf(domains) == Pow2(WidthSum(regs))
  {
    if regs != [] {
      var n := |regs| - 1;
      NarrowSize(domains[..n], regs[..n]);
      PowerSum(WidthSum(regs[..n]), regs[n].width);
    }
  }

  lemma {:induction false} BitsSize(domains: seq<seq<I64>>)
    requires forall i :: 0 <= i < |domains| ==> |domains[i]| == 2
    ensures SizeOf(domains) == Pow2(|domains|)
  {
    if domains != [] {
      BitsSize(domains[..|domains| - 1]);
    }
  }

  /** The inputs of a step are all combinations of 0 and 1, each once, in order. */
  lemma InputsExactly(d: Design, c: seq<I64>)
    ensures var all := Product(InputDomains(d));
            && (c in all <==> |c| == |DataInputs(d.inputs)| && forall i :: 0 <= i < |c| ==> c[i] == 0 || c[i] == 1)
            && |all| == Pow2(|DataInputs(d.inputs)|) && Lexical(all)
  {
    ProductMembers(InputDomains(d), c);
    ProductSize(InputDomains(d));
    BitsSize(InputDomains(d));
    ProductLexical(InputDomains(d));
  }

  /** The states enumerated are all combinations of the registers' values, in order; for registers of 1 to 4 bits
      there are as many as their bits have values. */
  lemma StatesExactly(d: Design, s: seq<I64>)
    requires forall i :: 0 <= i < |d.registers| ==> d.registers[i].width >= 1
    ensures var all := Product(RegDomains(d));
            && (s in all <==> |s| == |d.registers| && forall i :: 0 <= i < |s| ==>
                  if d.registers[i].width <= 4 then Signed(d.registers[i].width, s[i]) else s[i] == 0 || s[i] == 1)
            && Lexical(all)
            && ((forall i :: 0 <= i < |d.registers| ==> d.registers[i].width <= 4) ==>
                  |all| == Pow2(WidthSum(d.registers)))
  {
    ProductMembers(RegDomains(d), s);
    forall i | 0 <= i < |d.registers| ensures ValuesAscend(RegDomains(d)[i]) {
      DomainIs(d.registers[i].width);
    }
    forall i | 0 <= i < |s| && |s| == |d.registers|
      ensures s[i] in RegDomains(d)[i] <==>
              if d.registers[i].width <= 4 then Signed(d.registers[i].width, s[i]) else s[i] == 0 || s[i] == 1 {
      DomainIs(d.registers[i].width);
    }
    ProductLexical(RegDomains(d));
    ProductSize(RegDomains(d));
    if forall i :: 0 <= i < |d.registers| ==> d.registers[i].width <= 4 {
      forall i | 0 <= i < |d.registers| ensures |RegDomains(d)[i]| == Pow2(d.registers[i].width) {
        DomainIs(d.registers[i].width);
      }
      NarrowSize(RegDomains(d), d.registers);
    }
  }

  // ---- the environment of one step ------------------------------------------------------------------------------

  /** Binding names to values: a name has the value of its last occurrence, or what it had before. */
  lemma {:induction false} BindLast(env: Env, names: seq<string>, vals: seq<I64>, k: string)
    requires |names| == |vals|
    ensures var r := Bind(env, names, vals);
            && (k in r <==> k in env || k in names)
            && (k !in names && k in env ==> r[k] == env[k])
            && (forall i :: 0 <= i < |names| && names[i] == k && k !in names[i + 1..] ==> r[k] == vals[i])
  {
    if names != [] {
      var n := |names| - 1;
      BindLast(env, names[..n], vals[..n], k);
      assert names == names[..n] + [names[n]];
      forall i | 0 <= i < |names| && names[i] == k && k !in names[i + 1..]
        ensures Bind(env, names, vals)[k] == vals[i] {
        if i < n {
          assert names[i + 1..][n - i - 1] == names[n];
          assert names[..n][i] == k && names[i + 1..] == names[..n][i + 1..] + [names[n]];
        }
      }
    }
  }

  lemma DistinctLast(names: seq<string>, i: nat)
    requires Distinct(names) && i < |names|
    ensures names[i] !in names[i + 1..]
  {
  }

  /** Every register and every input has a name of its own. */
  predicate OwnNames(d: Design) {
    && Distinct(RegNames(d)) && Distinct(DataInputs(d.inputs))
    && forall x :: x in RegNames(d) ==> x !in DataInputs(d.inputs)
  }

  /** A step is evaluated where each register reads its value of the state and each input its value, and nothing else
      is known. */
  lemma EnvBinds(d: Design, s: seq<I64>, input: seq<I64>)
    requires |s| == |d.registers| && |input| == |DataInputs(d.inputs)| && OwnNames(d)
    ensures var env := EnvOf(d, s, input);
            && (forall x :: x in env <==> x in RegNames(d) || x in DataInputs(d.inputs))
            && (forall i :: 0 <= i < |s| ==> d.registers[i].name in env && env[d.registers[i].name] == s[i])
            && (forall j :: 0 <= j < |input| ==>
                  DataInputs(d.inputs)[j] in env && env[DataInputs(d.inputs)[j]] == input[j])
  {
    hide DataInputs, Bind;
    var names, ins, env := RegNames(d), DataInputs(d.inputs), EnvOf(d, s, input);
    var inner := Bind(map[], names, s);
    assert env == Bind(inner, ins, input);
    forall x ensures x in env <==> x in names || x in ins {
      BindLast(map[], names, s, x);
      BindLast(inner, ins, input, x);
    }
    forall i | 0 <= i < |s| ensures d.registers[i].name in env && env[d.registers[i].name] == s[i] {
      assert names[i] == d.registers[i].name && names[i] in names;
      DistinctLast(names, i);
      BindLast(map[], names, s, names[i]);
      BindLast(inner, ins, input, names[i]);
    }
    forall j | 0 <= j < |input| ensures ins[j] in env && env[ins[j]] == input[j] {
      assert ins[j] in ins;
      DistinctLast(ins, j);
      BindLast(inner, ins, input, ins[j]);
    }
  }

  /** A register wired to an input takes the input's value, wrapped; one wired to a register that register's value. */
  lemma NextReads(d: Design, s: seq<I64>, input: seq<I64>, i: nat)
    requires |s| == |d.registers| && |input| == |DataInputs(d.inputs)| && OwnNames(d) && i < |s|
    requires forall k :: 0 <= k < |s| ==> Height(d.ops, EnvOf(d, s, input), d.registers[k].next, DEPTH)
    ensures forall j :: 0 <= j < |input| && d.registers[i].next == DataInputs(d.inputs)[j] ==>
              Next(d, s, input)[i] == Wrap(d.registers[i].width, input[j])
    ensures forall j :: 0 <= j < |s| && d.registers[i].next == d.registers[j].name ==>
              Next(d, s, input)[i] == Wrap(d.registers[i].width, s[j])
  {
    hide DataInputs, Bind;
    EnvBinds(d, s, input);
    NextIsDenoted(d, s, input);
  }

  /** What a step computes for a register is the wrapped meaning of its next name among these values. */
  lemma NextMeans(d: Design, s: seq<I64>, input: seq<I64>, i: nat, v: I64)
    requires |s| == |d.registers| && |input| == |DataInputs(d.inputs)| && i < |s|
    requires forall k :: 0 <= k < |s| ==> Height(d.ops, EnvOf(d, s, input), d.registers[k].next, DEPTH)
    requires Means(d.ops, EnvOf(d, s, input), d.registers[i].next, v)
    ensures Next(d, s, input)[i] == Wrap(d.registers[i].width, v)
  {
    hide DataInputs, Bind;
    var env, next := EnvOf(d, s, input), d.registers[i].next;
    NextIsDenoted(d, s, input);
    assert Means(d.ops, env, next, Denote(d.ops, env, next, DEPTH));
    MeansUnique(d.ops, env, next, v, Denote(d.ops, env, next, DEPTH));
  }

  // ---- the reset state ------------------------------------------------------------------------------------------

  /** A register starts at the value of its reset constant; a reset name that is no constant is taken as 0, whatever
      it would evaluate to. */
  lemma ResetIs(d: Design, i: nat, v: I64)
    requires i < |d.registers| && Means(d.ops, map[], d.registers[i].reset, v)
    ensures (exists c :: Computed(d.ops, map[], d.registers[i].reset, Constant(c))) ==> Initial(d)[i] == v
    ensures (forall c :: !Computed(d.ops, map[], d.registers[i].reset, Constant(c))) ==> Initial(d)[i] == 0
  {
  }

  /** So the two can differ: the conjunction of `true` is 1, and as a reset value 0. */
  lemma ResetIsNoEvaluation(ops: Ops, d: Design)
    requires ops == map["a" := And(["t"]), "t" := Constant(LTrue)] && d == Design(ops, [Reg("r", "a", "a", 2)], [])
    ensures Means(ops, map[], "a", 1) && Initial(d) == [0]
  {
    assert Operands(ops["t"]) == [];
    assert Height(ops, map[], "t", 0) && Denote(ops, map[], "t", 0) == 1;
    OneDenotes(ops, "a", "t", 0);
  }
}
