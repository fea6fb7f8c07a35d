/**
 Where the system extracted by `crates/mununu-extract/src/circt.rs` is closed: every kept transition leads to a listed
 state, for all wirings and operations, exactly when no register is abstracted.
 */
module CirctLimits {

  import opened Arith
  import opened Basics
  import opened CirctEval
  import opened CirctExtract
  import opened CirctSystem

  // ---- every design has an extracted system --------------------------------------------------------------------

  lemma FullExists(d: Design) returns (ts: seq<Transition>)
    ensures Full(d, ts) && Distinct(ts)
  {
    hide Next, Product;
    SpacesFit(d);
    var states, inputs := AllStates(d), AllInputs(d);
    ts := [];
    for i := 0 to |states|
      invariant Distinct(ts) && forall t :: t in ts <==> Emitted(d, states, inputs, i, 0, t)
    {
      for j := 0 to |inputs|
        invariant Distinct(ts) && forall t :: t in ts <==> Emitted(d, states, inputs, i, j, t)
      {
        var key := Transition(states[i], Next(d, states[i], inputs[j]), inputs[j]);
        EmittedNext(d, states, inputs, i, j, key);
        if key !in ts {
          ts := ts + [key];
        }
      }
      EmittedRow(d, states, inputs, i);
    }
    FullList(d, ts);
  }

  lemma PrunedExists(ts: seq<Transition>, s: State) returns (kept: seq<Transition>)
    requires Distinct(ts)
    ensures Pruned(ts, s, kept) && Distinct(kept)
  {
    hide Reaches;
    kept := [];
    for i := 0 to |ts|
      invariant Distinct(kept)
      invariant forall t :: t in kept <==> t in ts[..i] && Reaches(ts, s, t.from) && Reaches(ts, s, t.to)
    {
      assert ts[..i + 1] == ts[..i] + [ts[i]] && ts[i] !in ts[..i];
      if Reaches(ts, s, ts[i].from) && Reaches(ts, s, ts[i].to) {
        kept := kept + [ts[i]];
      }
    }
    assert ts[..|ts|] == ts;
  }

  lemma StatesExist(all: seq<seq<I64>>, ts: seq<Transition>, s: State) returns (kept: seq<State>)
    requires Distinct(all)
    ensures Distinct(kept) && forall x :: x in kept <==> x in all && Reaches(ts, s, x)
  {
    hide Reaches;
    kept := [];
    for i := 0 to |all|
      invariant Distinct(kept) && forall x :: x in kept <==> x in all[..i] && Reaches(ts, s, x)
    {
      assert all[..i + 1] == all[..i] + [all[i]] && all[i] !in all[..i];
      if Reaches(ts, s, all[i]) {
        kept := kept + [all[i]];
      }
    }
    assert all[..|all|] == all;
  }

  lemma SystemExists(d: Design) returns (ts: seq<Transition>, sys: System)
    ensures Holds(d, ts, sys)
  {
    hide Next, Product, Reaches, Distinct;
    SpacesFit(d);
    ts := FullExists(d);
    var s := Initial(d);
    var kept := PrunedExists(ts, s);
    var states := StatesExist(AllStates(d), ts, s);
    sys := System(states, if s in states then [s] else [], kept, |AllStates(d)|, |states|);
  }

  // ---- closed exactly when narrow --------------------------------------------------------------------------------

  /** The design's registers have these names and widths; its wiring, operations and inputs are its own. */
  predicate HasRegisters(d: Design, names: seq<string>, widths: seq<nat>)
    requires |names| == |widths|
  {
    |d.registers| == |names| && forall i :: 0 <= i < |names| ==>
        d.registers[i].name == names[i] && d.registers[i].width == widths[i]
  }

  /** Every reset value is in its register's domain. */
  predicate ResetsFit(d: Design) {
    forall i :: 0 <= i < |d.registers| ==> InDomain(d.registers[i].width, Initial(d)[i])
  }

  /** Every transition of the extracted system leads to one of its states. */
  ghost predicate Lands(d: Design) {
    forall ts, sys :: Holds(d, ts, sys) ==> forall t :: t in sys.transitions ==> t.to in sys.states
  }

  lemma NarrowLands(d: Design)
    requires Narrow(d)
    ensures Lands(d)
  {
    hide Next, Product, InDomain, Distinct, IsRun, Narrow;
    forall ts, sys, t | Holds(d, ts, sys) && t in sys.transitions ensures t.to in sys.states {
      var run :| IsRun(ts, Initial(d), run) && End(Initial(d), run) == t.to;
      RunsStayInProduct(d, ts, run);
    }
  }

  lemma {:induction false} LongerThanAll(names: seq<string>) returns (s: string)
    ensures s !in names && forall i :: 0 <= i < |names| ==> |names[i]| < |s|
  {
    if names == [] {
      s := "x";
    } else {
      var k := |names| - 1;
      var t := LongerThanAll(names[..k]);
      s := if |names[k]| >= |t| then names[k] + "x" else t;
      forall i | 0 <= i < |names| ensures |names[i]| < |s| {
        assert i < k ==> names[..k][i] == names[i];
      }
    }
  }

  lemma {:induction false} BindKeys(env: Env, names: seq<string>, vals: seq<I64>, k: string)
    requires |names| == |vals| && k in Bind(env, names, vals)
    ensures k in env || k in names
  {
    if names != [] {
      var n := |names| - 1;
      if k != names[n] {
        BindKeys(env, names[..n], vals[..n], k);
      }
    }
  }

  /** All registers take the constant 2, under a name no register has, and reset to 0. */
  function TwoEverywhere(names: seq<string>, widths: seq<nat>, two: string): Design
    requires |names| == |widths|
  {
    Design(map[two := Constant(Decimal(2))],
           seq(|names|, i requires 0 <= i < |names| => Reg(names[i], two, two + "0", widths[i])), [])
  }

  lemma TwoIsTwo(names: seq<string>, widths: seq<nat>, two: string, s: seq<I64>)
    requires |names| == |widths| == |s| && two !in names
    ensures var d := TwoEverywhere(names, widths, two);
            var env := EnvOf(d, s, []);
            Height(d.ops, env, two, DEPTH) && Denote(d.ops, env, two, DEPTH) == 2
  {
    var d := TwoEverywhere(names, widths, two);
    var env := EnvOf(d, s, []);
    assert RegNames(d) == names;
    if two in env {
      BindKeys(Bind(map[], RegNames(d), s), DataInputs(d.inputs), [], two);
      BindKeys(map[], RegNames(d), s, two);
    }
    hide EnvOf, Bind;
    assert Operands(d.ops[two]) == [];
  }

  lemma ConstantNext(d: Design, two: string, s: seq<I64>)
    requires |s| == |d.registers| && DataInputs(d.inputs) == [] && forall i :: 0 <= i < |d.registers| ==>
            d.registers[i].next == two
    requires Height(d.ops, EnvOf(d, s, []), two, DEPTH) && Denote(d.ops, EnvOf(d, s, []), two, DEPTH) == 2
    ensures forall i :: 0 <= i < |d.registers| ==> Next(d, s, [])[i] == Wrap(d.registers[i].width, 2)
  {
    hide *;
    NextIsDenoted(d, s, []);
  }

  lemma TwoNext(names: seq<string>, widths: seq<nat>, two: string, s: seq<I64>)
    requires |names| == |widths| == |s| && two !in names
    ensures var d := TwoEverywhere(names, widths, two);
            |d.registers| == |names| && forall i :: 0 <= i < |names| ==> Next(d, s, [])[i] == Wrap(widths[i], 2)
  {
    hide Height, Denote, Wrap, EnvOf, Next;
    TwoIsTwo(names, widths, two, s);
    ConstantNext(TwoEverywhere(names, widths, two), two, s);
  }

  lemma TwoResets(names: seq<string>, widths: seq<nat>, two: string)
    requires |names| == |widths| && forall j :: 0 <= j < |widths| ==> widths[j] >= 1
    ensures var d := TwoEverywhere(names, widths, two);
            Initial(d) == seq(|names|, _ => 0) && ResetsFit(d) && HasRegisters(d, names, widths)
  {
    assert |two + "0"| != |two|;
    forall j | 0 <= j < |names| ensures InDomain(widths[j], 0) {
      ZeroInDomain(widths[j]);
    }
    hide InDomain;
  }

  /** The step from the reset state leaves the product. */
  lemma StepEscapes(names: seq<string>, widths: seq<nat>, i: nat, two: string) returns (t: Transition)
    requires |names| == |widths| && i < |names| && widths[i] > 4 && two !in names
    requires forall j :: 0 <= j < |widths| ==> widths[j] >= 1
    ensures var d := TwoEverywhere(names, widths, two);
            Allowed(d, t) && t.from == Initial(d) && t.to !in AllStates(d)
  {
    var d := TwoEverywhere(names, widths, two);
    var zeros: seq<I64> := seq(|names|, _ => 0);
    TwoNext(names, widths, two, zeros);
    TwoResets(names, widths, two);
    ProductMembers(InputDomains(d), []);
    t := Transition(zeros, Next(d, zeros, []), []);
    hide Next, Product, EnvOf;
    TwoEscapes(widths[i]);
    assert t.to[i] == 2;
    hide InDomain, Wrap;
    InProduct(d, zeros);
    InProduct(d, t.to);
  }

  /** With a register above 4 bits, some wiring leaves the listed states. */
  lemma WideEscapes(names: seq<string>, widths: seq<nat>, i: nat) returns (d: Design)
    requires |names| == |widths| && i < |names| && widths[i] > 4 && forall j :: 0 <= j < |widths| ==> widths[j] >= 1
    ensures HasRegisters(d, names, widths) && ResetsFit(d) && !Lands(d)
  {
    var two := LongerThanAll(names);
    d := TwoEverywhere(names, widths, two);
    TwoResets(names, widths, two);
    var t := StepEscapes(names, widths, i, two);
    hide TwoEverywhere, Next, Product, InDomain, Distinct, IsRun, Reaches, Allowed, HasRegisters, ResetsFit;
    var ts, sys := SystemExists(d);
    assert t in ts;
    ReachesSelf(ts, Initial(d));
    ReachesStep(ts, Initial(d), t);
    assert t in sys.transitions && t.to !in sys.states;
  }

  lemma ZeroInDomain(w: nat)
    requires w >= 1
    ensures InDomain(w, 0)
  {
    assert Pow2(w) >= 2;
  }

  /** For registers of at least one bit: every wiring and operation table with resets in their domains gives transitions
      into listed states only, if and only if no register has more than 4 bits. */
  lemma LandsExactly(names: seq<string>, widths: seq<nat>)
    requires |names| == |widths| && forall j :: 0 <= j < |widths| ==> widths[j] >= 1
    ensures (forall d :: HasRegisters(d, names, widths) && ResetsFit(d) ==> Lands(d)) <==>
            forall i :: 0 <= i < |widths| ==> widths[i] <= 4
  {
    hide Lands, InDomain;
    if forall i :: 0 <= i < |widths| ==> widths[i] <= 4 {
      forall d | HasRegisters(d, names, widths) && ResetsFit(d) ensures Lands(d) {
        assert Narrow(d);
        NarrowLands(d);
      }
    } else {
      var i :| 0 <= i < |widths| && widths[i] > 4;
      var d := WideEscapes(names, widths, i);
    }
  }
}
