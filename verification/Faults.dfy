/**
 Fault accounting: which injections `TraceNames::fired_faults` of `crates/mununu-core/src/trace.rs` reports on a
 trace, and what they cost.
 */
module Faults {

  import opened Basics

  /** An input of one cycle; a wide value has no number, only its digits. */
  datatype Cell = Cell(register: string, value: Option<nat>, hex: string)

  datatype Step = Step(cycle: nat, inputs: seq<Cell>)

  /** One fault site: its enable and value inputs. */
  datatype Site = Site(enable: string, value: string, name: string)

  datatype Fault = Fault(site: string, value: Option<nat>, hex: string)

  /** `budget` is `None` for unbounded injection. */
  datatype Names = Names(sites: seq<Site>, budget: Option<nat>, warmup: nat)

  // ---- one cycle -----------------------------------------------------------------------------------------------

  /** The cell of a name: the last one when a name occurs twice. */
  function Find(inputs: seq<Cell>, name: string): Option<Cell> {
    if inputs == [] then None
    else if inputs[|inputs| - 1].register == name then Some(inputs[|inputs| - 1])
    else Find(inputs[..|inputs| - 1], name)
  }

  predicate IsOn(inputs: seq<Cell>, name: string) {
    var c := Find(inputs, name);
    c.Some? && c.value.value.Some? && c.value.value.value != 0
  }

  /** The enables of one cycle, site by site. */
  function Enables(sites: seq<Site>, inputs: seq<Cell>): (r: seq<bool>)
    ensures |r| == |sites|
  {
    seq(|sites|, i requires 0 <= i < |sites| => IsOn(inputs, sites[i].enable))
  }

  function Select(sites: seq<Site>, flags: seq<bool>): seq<Site>
    requires |sites| == |flags|
  {
    if sites == [] then []
    else Select(sites[..|sites| - 1], flags[..|sites| - 1]) + if flags[|sites| - 1] then [sites[|sites| - 1]] else []
  }

  function Ones(flags: seq<bool>): nat {
    if flags == [] then 0 else Ones(flags[..|flags| - 1]) + if flags[|flags| - 1] then 1 else 0
  }

  function Masked(flags: seq<bool>, mask: bool): (r: seq<bool>)
    ensures |r| == |flags|
  {
    seq(|flags|, i requires 0 <= i < |flags| => flags[i] && mask)
  }

  lemma {:induction false} OnesAtMost(flags: seq<bool>)
    ensures Ones(flags) <= |flags|
  {
    if flags != [] {
      OnesAtMost(flags[..|flags| - 1]);
    }
  }

  lemma {:induction false} SelectMasked(sites: seq<Site>, flags: seq<bool>, mask: bool)
    requires |sites| == |flags|
    ensures Select(sites, Masked(flags, mask)) == if mask then Select(sites, flags) else []
    ensures Ones(Masked(flags, mask)) == if mask then Ones(flags) else 0
    ensures |Select(sites, flags)| == Ones(flags)
  {
    if sites != [] {
      var init := flags[..|sites| - 1];
      SelectMasked(sites[..|sites| - 1], init, mask);
      assert Masked(flags, mask)[..|sites| - 1] == Masked(init, mask);
    }
  }

  /** The cycles are numbered from 0. */
  predicate Numbered(steps: seq<Step>) {
    forall i :: 0 <= i < |steps| ==> steps[i].cycle == i
  }

  function Enabled(n: Names, s: Step): seq<Site> { Select(n.sites, Enables(n.sites, s.inputs)) }

  /** The sites that carry a value, with it. */
  function Reported(sites: seq<Site>, inputs: seq<Cell>): seq<Fault> {
    if sites == [] then []
    else
      var last, v := sites[|sites| - 1], Find(inputs, sites[|sites| - 1].value);
      Reported(sites[..|sites| - 1], inputs) + if v.Some? then [Fault(last.name, v.value.value, v.value.hex)] else []
  }

  // ---- the run ---------------------------------------------------------------------------------------------------

  predicate Fires(n: Names, s: Step, spent: nat) {
    && Enabled(n, s) != [] && s.cycle >= n.warmup
    && (n.budget.Some? ==> spent + |Enabled(n, s)| <= n.budget.value)
  }

  /** What is charged after the steps. */
  function Spent(n: Names, steps: seq<Step>): nat {
    if steps == [] then 0
    else
      var before, s := Spent(n, steps[..|steps| - 1]), steps[|steps| - 1];
      if Fires(n, s, before) then before + |Enabled(n, s)| else before
  }

  function Fired(n: Names, steps: seq<Step>): (r: seq<seq<Fault>>)
    ensures |r| == |steps|
  {
    if steps == [] then []
    else
      var init, s := steps[..|steps| - 1], steps[|steps| - 1];
      Fired(n, init) + [if Fires(n, s, Spent(n, init)) then Reported(Enabled(n, s), s.inputs) else []]
  }

  method FiredFaults(n: Names, steps: seq<Step>) returns (fired: seq<seq<Fault>>)
    ensures fired == Fired(n, steps)
  {
    hide Enabled, Reported;
    fired := [];
    var spent := 0;
    for i := 0 to |steps|
      invariant fired == Fired(n, steps[..i]) && spent == Spent(n, steps[..i])
    {
      var step := steps[i];
      assert steps[..i + 1][..i] == steps[..i];
      var enabled := EnabledSites(n, step);
      var fits := n.budget.None? || spent + |enabled| <= n.budget.value;
      if enabled == [] || step.cycle < n.warmup || !fits {
        fired := fired + [[]];
      } else {
        spent := spent + |enabled|;
        var faults := Report(enabled, step.inputs);
        fired := fired + [faults];
      }
    }
    assert steps[..|steps|] == steps;
  }

  method Lookup(inputs: seq<Cell>, name: string) returns (c: Option<Cell>)
    ensures c == Find(inputs, name)
  {
    var byName: map<string, Cell> := map[];
    for i := 0 to |inputs|
      invariant forall x :: x in byName <==> Find(inputs[..i], x).Some?
      invariant forall x :: x in byName ==> Find(inputs[..i], x) == Some(byName[x])
    {
      assert inputs[..i + 1][..i] == inputs[..i];
      byName := byName[inputs[i].register := inputs[i]];
    }
    assert inputs[..|inputs|] == inputs;
    c := if name in byName then Some(byName[name]) else None;
  }

  method EnabledSites(n: Names, step: Step) returns (enabled: seq<Site>)
    ensures enabled == Enabled(n, step)
  {
    hide Find;
    enabled := [];
    ghost var flags := Enables(n.sites, step.inputs);
    for i := 0 to |n.sites|
      invariant enabled == Select(n.sites[..i], flags[..i])
    {
      assert n.sites[..i + 1][..i] == n.sites[..i] && flags[..i + 1][..i] == flags[..i];
      var c := Lookup(step.inputs, n.sites[i].enable);
      if c.Some? && c.value.value.Some? && c.value.value.value != 0 {
        enabled := enabled + [n.sites[i]];
      }
    }
    assert n.sites[..|n.sites|] == n.sites && flags[..|n.sites|] == flags;
  }

  method Report(enabled: seq<Site>, inputs: seq<Cell>) returns (faults: seq<Fault>)
    ensures faults == Reported(enabled, inputs)
  {
    hide Find;
    faults := [];
    for i := 0 to |enabled|
      invariant faults == Reported(enabled[..i], inputs)
    {
      assert enabled[..i + 1][..i] == enabled[..i];
      var v := Lookup(inputs, enabled[i].value);
      if v.Some? {
        faults := faults + [Fault(enabled[i].name, v.value.value, v.value.hex)];
      }
    }
    assert enabled[..|enabled|] == enabled;
  }

  // ---- the budget ------------------------------------------------------------------------------------------------

  function Total(fired: seq<seq<Fault>>): nat {
    if fired == [] then 0 else Total(fired[..|fired| - 1]) + |fired[|fired| - 1]|
  }

  lemma {:induction false} ReportedAtMost(sites: seq<Site>, inputs: seq<Cell>)
    ensures |Reported(sites, inputs)| <= |sites|
  {
    if sites != [] {
      ReportedAtMost(sites[..|sites| - 1], inputs);
    }
  }

  /** On every trace: no more is reported than is charged, and no more is charged than the budget. */
  lemma {:induction false} BudgetNeverExceeded(n: Names, steps: seq<Step>)
    ensures Total(Fired(n, steps)) <= Spent(n, steps)
    ensures n.budget.Some? ==> Spent(n, steps) <= n.budget.value
  {
    if steps != [] {
      var init, s := steps[..|steps| - 1], steps[|steps| - 1];
      BudgetNeverExceeded(n, init);
      ReportedAtMost(Enabled(n, s), s.inputs);
      var f := Fired(n, steps);
      assert f[..|f| - 1] == Fired(n, init);
    }
  }

  /** Each cycle reports nothing, or all its enabled sites that carry a value; it reports nothing before the warm-up;
      and it skips enabled sites past the warm-up only where they do not fit the budget. */
  lemma {:induction false} FiredAt(n: Names, steps: seq<Step>, i: nat)
    requires i < |steps|
    ensures Fired(n, steps)[i] ==
            if Fires(n, steps[i], Spent(n, steps[..i])) then Reported(Enabled(n, steps[i]), steps[i].inputs) else []
    ensures steps[i].cycle < n.warmup ==> Fired(n, steps)[i] == []
  {
    hide Enabled, Reported;
    var init := steps[..|steps| - 1];
    if i < |steps| - 1 {
      FiredAt(n, init, i);
      assert init[i] == steps[i] && init[..i] == steps[..i];
    }
  }

  lemma {:induction false} SelectMembers(sites: seq<Site>, flags: seq<bool>, x: Site)
    requires |sites| == |flags|
    ensures x in Select(sites, flags) <==> exists i :: 0 <= i < |sites| && flags[i] && sites[i] == x
  {
    if sites != [] {
      var n := |sites| - 1;
      SelectMembers(sites[..n], flags[..n], x);
      assert sites == sites[..n] + [sites[n]];
    }
  }

  /** The fault a site reports when its value input is `c`. */
  function FaultOf(x: Site, c: Cell): Fault { Fault(x.name, c.value, c.hex) }

  lemma {:induction false} ReportedMembers(sites: seq<Site>, inputs: seq<Cell>, f: Fault)
    ensures f in Reported(sites, inputs) <==>
            exists x :: x in sites && Find(inputs, x.value).Some? && f == FaultOf(x, Find(inputs, x.value).value)
  {
    if sites != [] {
      var n := |sites| - 1;
      ReportedMembers(sites[..n], inputs, f);
      assert sites == sites[..n] + [sites[n]];
    }
  }

  /** A fault is reported on a cycle exactly when the cycle fires and some site whose enable is on has a value input,
      whose cell the fault carries. */
  lemma ReportsExactly(n: Names, steps: seq<Step>, i: nat, f: Fault)
    requires i < |steps|
    ensures f in Fired(n, steps)[i] <==>
            && Fires(n, steps[i], Spent(n, steps[..i]))
            && exists j :: 0 <= j < |n.sites| && IsOn(steps[i].inputs, n.sites[j].enable)
                           && Find(steps[i].inputs, n.sites[j].value).Some?
                           && f == FaultOf(n.sites[j], Find(steps[i].inputs, n.sites[j].value).value)
  {
    hide Find, IsOn, Fires, Fired, Reported, Select;
    FiredAt(n, steps, i);
    var inputs := steps[i].inputs;
    ReportedMembers(Enabled(n, steps[i]), inputs, f);
    forall x ensures x in Enabled(n, steps[i]) <==>
        exists j :: 0 <= j < |n.sites| && IsOn(inputs, n.sites[j].enable) && n.sites[j] == x {
      SelectMembers(n.sites, Enables(n.sites, inputs), x);
    }
  }

  predicate Raises(k: Option<nat>, l: Option<nat>) {
    l.None? || (k.Some? && k.value <= l.value)
  }

  /** A larger budget never charges less, at any point of any trace: until the two first differ they charge the same,
      and from there on the larger one has charged more than the smaller one ever may. */
  lemma {:induction false} RaisingTheBudget(n: Names, more: Names, steps: seq<Step>)
    requires more.sites == n.sites && more.warmup == n.warmup && Raises(n.budget, more.budget)
    ensures Spent(n, steps) <= Spent(more, steps)
    ensures Spent(n, steps) == Spent(more, steps) || (n.budget.Some? && Spent(more, steps) > n.budget.value)
  {
    if steps != [] {
      hide Enabled;
      var s := steps[|steps| - 1];
      RaisingTheBudget(n, more, steps[..|steps| - 1]);
      BudgetNeverExceeded(n, steps);
      assert Enabled(n, s) == Enabled(more, s) by { SameEnabled(n, more, s); }
    }
  }

  lemma SameEnabled(n: Names, more: Names, s: Step)
    requires more.sites == n.sites
    ensures Enabled(n, s) == Enabled(more, s)
  {
  }
}
