/**
 What `TraceNames::fired_faults` of `crates/mununu-core/src/trace.rs` charges and reports in one cycle, said of the
 cells of the trace themselves: which sites, in which order, with which values.
 */
module FaultReports {
  import opened Basics
  import opened Faults

  // ---- the cells of a cycle ---------------------------------------------------------------------------------------

  /** The cell at `k` is the last one of this name; a name that occurs twice reads its last cell. */
  predicate LastCell(inputs: seq<Cell>, name: string, k: int) {
    && 0 <= k < |inputs| && inputs[k].register == name
    && forall j :: k < j < |inputs| ==> inputs[j].register != name
  }

  predicate Present(inputs: seq<Cell>, name: string) {
    exists k :: 0 <= k < |inputs| && inputs[k].register == name
  }

  lemma {:induction false} FindExactly(inputs: seq<Cell>, name: string)
    ensures Find(inputs, name).Some? <==> Present(inputs, name)
    ensures forall k :: LastCell(inputs, name, k) ==> Find(inputs, name) == Some(inputs[k])
    ensures Present(inputs, name) ==> exists k :: LastCell(inputs, name, k)
  {
    if inputs != [] {
      var n := |inputs| - 1;
      var init := inputs[..n];
      FindExactly(init, name);
      if inputs[n].register == name {
        assert LastCell(inputs, name, n);
      } else {
        forall k | LastCell(inputs, name, k) ensures LastCell(init, name, k) {
        }
        forall k | LastCell(init, name, k) ensures LastCell(inputs, name, k) {
        }
        if k :| 0 <= k < |inputs| && inputs[k].register == name {
          assert init[k].register == name;
        }
      }
    }
  }

  /** The input has a number, and it is not 0. */
  ghost predicate On(inputs: seq<Cell>, name: string) {
    exists k :: LastCell(inputs, name, k) && inputs[k].value.Some? && inputs[k].value.value > 0
  }

  lemma OnExactly(inputs: seq<Cell>, name: string)
    ensures IsOn(inputs, name) <==> On(inputs, name)
  {
    FindExactly(inputs, name);
    hide Find;
    if IsOn(inputs, name) {
      var k :| LastCell(inputs, name, k);
    }
  }

  // ---- how many sites ask -----------------------------------------------------------------------------------------

  /** The sites whose enable is on. */
  ghost function Asking(n: Names, s: Step): set<nat> {
    set j: nat | j < |n.sites| && On(s.inputs, n.sites[j].enable)
  }

  lemma {:induction false} OnesAre(flags: seq<bool>)
    ensures Ones(flags) == |set j: nat | j < |flags| && flags[j]|
  {
    if flags != [] {
      var n := |flags| - 1;
      OnesAre(flags[..n]);
      var before := set j: nat | j < |flags[..n]| && flags[..n][j];
      var after := set j: nat | j < |flags| && flags[j];
      assert after == if flags[n] then before + {n} else before;
    }
  }

  lemma EnabledAre(n: Names, s: Step)
    ensures |Enabled(n, s)| == |Asking(n, s)|
  {
    var flags := Enables(n.sites, s.inputs);
    SelectMasked(n.sites, flags, true);
    OnesAre(flags);
    forall j: nat | j < |n.sites| ensures flags[j] <==> On(s.inputs, n.sites[j].enable) {
      OnExactly(s.inputs, n.sites[j].enable);
    }
    assert (set j: nat | j < |flags| && flags[j]) == Asking(n, s);
  }

  /** A cycle fires when some site asks, the warm-up is over, and what was charged before and the sites that ask are
      together within the budget; then all of them are charged, and otherwise none. */
  lemma ChargedExactly(n: Names, steps: seq<Step>, i: nat)
    requires i < |steps|
    ensures var s, spent, asking := steps[i], Spent(n, steps[..i]), |Asking(n, steps[i])|;
            var fires := asking > 0 && s.cycle >= n.warmup && (n.budget.None? || spent + asking <= n.budget.value);
            && (Fires(n, s, spent) <==> fires)
            && Spent(n, steps[..i + 1]) == spent + (if fires then asking else 0)
            && (!fires ==> Fired(n, steps)[i] == [])
  {
    EnabledAre(n, steps[i]);
    FiredAt(n, steps, i);
    assert steps[..i + 1][..i] == steps[..i];
    hide Enabled;
  }

  // ---- what is reported -------------------------------------------------------------------------------------------

  /** `r` reports the sites at `at`, each with the cell of its value input. */
  predicate Carries(sites: seq<Site>, inputs: seq<Cell>, at: seq<nat>, r: seq<Fault>) {
    && Ascends(at) && |at| == |r|
    && forall k :: 0 <= k < |at| ==> at[k] < |sites| && CarriesOne(sites[at[k]], inputs, r[k])
  }

  predicate CarriesOne(x: Site, inputs: seq<Cell>, f: Fault) {
    var c := Find(inputs, x.value);
    c.Some? && f.site == x.name && f.value == c.value.value && f.hex == c.value.hex
  }

  ghost predicate Chosen(sites: seq<Site>, flags: seq<bool>, inputs: seq<Cell>, at: seq<nat>)
    requires |sites| == |flags|
  {
    forall i :: i in at <==> 0 <= i < |sites| && flags[i] && Find(inputs, sites[i].value).Some?
  }

  lemma {:induction false} SelectedReport(sites: seq<Site>, flags: seq<bool>, inputs: seq<Cell>) returns (at: seq<nat>)
    requires |sites| == |flags|
    ensures Carries(sites, inputs, at, Reported(Select(sites, flags), inputs)) && Chosen(sites, flags, inputs, at)
  {
    hide Find;
    if sites == [] {
      at := [];
    } else {
      hide *;
      var n := |sites| - 1;
      var before := SelectedReport(sites[..n], flags[..n], inputs);
      var r := Reported(Select(sites[..n], flags[..n]), inputs);
      SelectedSnoc(sites, flags, inputs);
      CarriesSnoc(sites, inputs, before, r);
      ChosenSnoc(sites, flags, inputs, before);
      at := if flags[n] && Find(inputs, sites[n].value).Some? then before + [n] else before;
    }
  }

  lemma SelectedSnoc(sites: seq<Site>, flags: seq<bool>, inputs: seq<Cell>)
    requires |sites| == |flags| && sites != []
    ensures var n := |sites| - 1;
            var r, c := Reported(Select(sites[..n], flags[..n]), inputs), Find(inputs, sites[n].value);
            && (c.Some? ==> CarriesOne(sites[n], inputs, FaultOf(sites[n], c.value)))
            && Reported(Select(sites, flags), inputs) ==
               if flags[n] && c.Some? then r + [FaultOf(sites[n], c.value)] else r
  {
    hide Find;
    var n := |sites| - 1;
    ReportedSnoc(Select(sites[..n], flags[..n]), sites[n], inputs);
  }

  lemma CarriesSnoc(sites: seq<Site>, inputs: seq<Cell>, at: seq<nat>, r: seq<Fault>)
    requires sites != [] && Carries(sites[..|sites| - 1], inputs, at, r)
    ensures Carries(sites, inputs, at, r)
    ensures forall f :: CarriesOne(sites[|sites| - 1], inputs, f) ==>
              Carries(sites, inputs, at + [|sites| - 1], r + [f])
  {
    hide Find;
  }

  lemma ChosenSnoc(sites: seq<Site>, flags: seq<bool>, inputs: seq<Cell>, at: seq<nat>)
    requires |sites| == |flags| && sites != []
    requires Chosen(sites[..|sites| - 1], flags[..|sites| - 1], inputs, at)
    ensures var n := |sites| - 1;
            var more := flags[n] && Find(inputs, sites[n].value).Some?;
            Chosen(sites, flags, inputs, if more then at + [n] else at)
  {
    hide Find;
    var n := |sites| - 1;
    forall i ensures i in at + [n] <==> i in at || i == n {
    }
    assert forall i :: 0 <= i < n ==> sites[..n][i] == sites[i] && flags[..n][i] == flags[i];
  }

  lemma ReportedSnoc(sites: seq<Site>, x: Site, inputs: seq<Cell>)
    ensures Reported(sites + [x], inputs) == Reported(sites, inputs) +
            if Find(inputs, x.value).Some? then [FaultOf(x, Find(inputs, x.value).value)] else []
    ensures sites + [] == sites
  {
    assert (sites + [x])[..|sites|] == sites;
  }

  /** A cycle that fires reports, in the order of the sites, exactly those that ask and whose value input is there. */
  lemma ReportExactly(n: Names, steps: seq<Step>, i: nat) returns (at: seq<nat>)
    requires i < |steps| && Fires(n, steps[i], Spent(n, steps[..i]))
    ensures Carries(n.sites, steps[i].inputs, at, Fired(n, steps)[i])
    ensures forall j: nat :: j in at <==> j in Asking(n, steps[i]) && Present(steps[i].inputs, n.sites[j].value)
  {
    FiredAt(n, steps, i);
    var inputs := steps[i].inputs;
    var flags := Enables(n.sites, inputs);
    at := SelectedReport(n.sites, flags, inputs);
    hide *;
    ChosenAsk(n, steps[i], at);
  }

  lemma ChosenAsk(n: Names, s: Step, at: seq<nat>)
    requires Chosen(n.sites, Enables(n.sites, s.inputs), s.inputs, at)
    ensures forall j: nat :: j in at <==> j in Asking(n, s) && Present(s.inputs, n.sites[j].value)
  {
    hide Find, On, Present, IsOn;
    forall j: nat ensures j in at <==> j in Asking(n, s) && Present(s.inputs, n.sites[j].value) {
      if j < |n.sites| {
        OnExactly(s.inputs, n.sites[j].enable);
        FindExactly(s.inputs, n.sites[j].value);
      }
    }
  }

  /** Each under its own name, with the number and the digits of the last cell of its value input. */
  lemma CarriesTheCell(sites: seq<Site>, inputs: seq<Cell>, at: seq<nat>, r: seq<Fault>, k: nat, m: nat)
    requires Carries(sites, inputs, at, r) && k < |at| && LastCell(inputs, sites[at[k]].value, m)
    ensures r[k] == Fault(sites[at[k]].name, inputs[m].value, inputs[m].hex)
  {
    FindExactly(inputs, sites[at[k]].value);
    hide Find;
    assert CarriesOne(sites[at[k]], inputs, r[k]);
  }
}
