/**
 Raising a fault budget (`TraceNames::fired_faults` of `crates/mununu-core/src/trace.rs`) never charges less, but it
 can keep a cycle from firing that fires under the smaller budget. This module says exactly when.
 */
module FaultBudgets {

  import opened Basics
  import opened Faults

  // ---- the accounting on counts ------------------------------------------------------------------------------

  /** What a budget `k` charges for cycles that ask for the given numbers of injections. */
  function Charge(k: nat, asks: seq<nat>): nat {
    if asks == [] then 0
    else
      var before, c := Charge(k, asks[..|asks| - 1]), asks[|asks| - 1];
      if before + c <= k then before + c else before
  }

  lemma ChargeSnoc(k: nat, asks: seq<nat>, c: nat)
    ensures Charge(k, asks + [c]) == Charge(k, asks) + if Charge(k, asks) + c <= k then c else 0
  {
    assert (asks + [c])[..|asks|] == asks;
  }

  predicate AtMost(asks: seq<nat>, n: nat) {
    forall i :: 0 <= i < |asks| ==> asks[i] <= n
  }

  /** After `asks`, a cycle asking for `c` fires under `k` and not under `l`. */
  predicate Silences(k: nat, l: nat, asks: seq<nat>, c: nat) {
    c > 0 && Charge(k, asks) + c <= k && Charge(l, asks) + c > l
  }

  /** Whether some cycle can be silenced with `n` sites: not without a budget or with one site, with two sites only
      when the budgets differ by an odd number, and always with three. */
  predicate CanSilence(n: nat, k: nat, l: nat)
    requires k < l
  {
    k >= 1 && (n >= 3 || (n == 2 && (l - k) % 2 == 1))
  }

  /** While nothing can be silenced the charges are equal, or the smaller budget is used up, or it has one left and
      the larger is ahead by an even number. */
  lemma {:induction false} ChargesApart(n: nat, k: nat, l: nat, asks: seq<nat>)
    requires k < l && n <= 2 && !CanSilence(n, k, l) && AtMost(asks, n)
    ensures var a, b := Charge(k, asks), Charge(l, asks);
            a <= k && b <= l && (a == b || a == k || (n == 2 && a == k - 1 && b > a && (b - a) % 2 == 0))
  {
    if asks != [] {
      ChargesApart(n, k, l, asks[..|asks| - 1]);
    }
  }

  lemma NeverSilenced(n: nat, k: nat, l: nat, asks: seq<nat>, c: nat)
    requires k < l && !CanSilence(n, k, l) && AtMost(asks, n) && c <= n
    ensures !Silences(k, l, asks, c)
  {
    if n <= 2 {
      ChargesApart(n, k, l, asks);
    }
  }

  lemma {:induction false} OneByOne(k: nat, n: nat)
    requires n <= k
    ensures Charge(k, seq(n, _ => 1)) == n
  {
    if n > 0 {
      OneByOne(k, n - 1);
      assert seq(n, _ => 1) == seq(n - 1, _ => 1) + [1];
      ChargeSnoc(k, seq(n - 1, _ => 1), 1);
    }
  }

  /** The larger budget can be used up while the smaller keeps one left: by twos, and a last three where the rest is
      odd. */
  lemma {:induction false} UseUp(n: nat, k: nat, l: nat, asks: seq<nat>) returns (more: seq<nat>)
    requires 1 <= k < l && 2 <= n && AtMost(asks, n) && Charge(k, asks) == k - 1 && Charge(l, asks) <= l
    requires var rest := l - Charge(l, asks); rest % 2 == 0 || (n >= 3 && rest >= 3)
    ensures AtMost(more, n) && Charge(k, more) == k - 1 && Charge(l, more) == l
    decreases l - Charge(l, asks)
  {
    var rest := l - Charge(l, asks);
    if rest == 0 {
      more := asks;
    } else {
      var c := if rest == 3 then 3 else 2;
      ChargeSnoc(k, asks, c);
      ChargeSnoc(l, asks, c);
      more := UseUp(n, k, l, asks + [c]);
    }
  }

  lemma SomeSilenced(n: nat, k: nat, l: nat) returns (asks: seq<nat>)
    requires k < l && CanSilence(n, k, l)
    ensures AtMost(asks, n) && Silences(k, l, asks, 1)
  {
    OneByOne(k, k - 1);
    OneByOne(l, k - 1);
    asks := UseUp(n, k, l, seq(k - 1, _ => 1));
  }

  // ---- traces ------------------------------------------------------------------------------------------------

  /** What a cycle asks for: its enabled sites, from the warm-up on. */
  function Ask(n: Names, s: Step): nat { if s.cycle >= n.warmup then |Enabled(n, s)| else 0 }

  function Asks(n: Names, steps: seq<Step>): (r: seq<nat>)
    ensures |r| == |steps|
  {
    seq(|steps|, i requires 0 <= i < |steps| => Ask(n, steps[i]))
  }

  lemma {:induction false} SelectAtMost(sites: seq<Site>, flags: seq<bool>)
    requires |sites| == |flags|
    ensures |Select(sites, flags)| <= |sites|
  {
    SelectMasked(sites, flags, true);
    OnesAtMost(flags);
  }

  lemma AsksAtMost(n: Names, steps: seq<Step>)
    ensures AtMost(Asks(n, steps), |n.sites|)
  {
    forall i | 0 <= i < |steps| ensures Asks(n, steps)[i] <= |n.sites| {
      SelectAtMost(n.sites, Enables(n.sites, steps[i].inputs));
    }
  }

  /** The program's charge is that of the counts, and a cycle fires when it asks and fits. */
  lemma {:induction false} SpentIsCharge(n: Names, steps: seq<Step>)
    requires n.budget.Some?
    ensures Spent(n, steps) == Charge(n.budget.value, Asks(n, steps))
  {
    hide Enabled;
    if steps != [] {
      var init := steps[..|steps| - 1];
      SpentIsCharge(n, init);
      assert Asks(n, steps)[..|steps| - 1] == Asks(n, init);
    }
  }

  /** Under `n` the cycle reports faults, under `more` it reports none. */
  predicate Silenced(n: Names, more: Names, steps: seq<Step>, i: nat) {
    i < |steps| && Fired(n, steps)[i] != [] && Fired(more, steps)[i] == []
  }

  /** The reports of a cycle under two budgets differ only by whether it fires. */
  lemma SilencedFires(n: Names, more: Names, steps: seq<Step>, i: nat)
    requires more.sites == n.sites && more.warmup == n.warmup && Silenced(n, more, steps, i)
    ensures Fires(n, steps[i], Spent(n, steps[..i])) && !Fires(more, steps[i], Spent(more, steps[..i]))
  {
    hide Enabled, Reported, Fired;
    FiredAt(n, steps, i);
    FiredAt(more, steps, i);
    SameEnabled(n, more, steps[i]);
  }

  /** An unbounded budget silences nothing. */
  lemma UnboundedSilencesNothing(n: Names, more: Names, steps: seq<Step>, i: nat)
    requires more == n.(budget := None)
    ensures !Silenced(n, more, steps, i)
  {
    if i < |steps| {
      SameEnabled(n, more, steps[i]);
    }
    if Silenced(n, more, steps, i) {
      SilencedFires(n, more, steps, i);
    }
  }

  // ---- a trace with given counts -------------------------------------------------------------------------------

  /** As the rewrite names them: every site has its own enable, and no value input is an enable. */
  predicate OwnInputs(sites: seq<Site>) {
    && (forall i, j :: 0 <= i < j < |sites| ==> sites[i].enable != sites[j].enable)
    && (forall i, j :: 0 <= i < |sites| && 0 <= j < |sites| ==> sites[i].enable != sites[j].value)
  }

  lemma {:induction false} FindIs(inputs: seq<Cell>, name: string)
    ensures var c := Find(inputs, name);
            && (c.Some? <==> exists x :: x in inputs && x.register == name)
            && (c.Some? ==> c.value in inputs && c.value.register == name)
  {
    if inputs != [] {
      var k := |inputs| - 1;
      FindIs(inputs[..k], name);
      assert inputs == inputs[..k] + [inputs[k]];
    }
  }

  /** All values, and the enables of the first `c` sites. */
  function InputsFor(sites: seq<Site>, c: nat): seq<Cell>
    requires c <= |sites|
  {
    seq(|sites|, i requires 0 <= i < |sites| => Cell(sites[i].value, Some(0), "0"))
    + seq(c, i requires 0 <= i < c => Cell(sites[i].enable, Some(1), "1"))
  }

  lemma InputsForOn(sites: seq<Site>, c: nat, j: nat)
    requires OwnInputs(sites) && c <= |sites| && j < |sites|
    ensures IsOn(InputsFor(sites, c), sites[j].enable) <==> j < c
    ensures Find(InputsFor(sites, c), sites[j].value).Some?
  {
    var inputs := InputsFor(sites, c);
    assert inputs[j] == Cell(sites[j].value, Some(0), "0") && inputs[j] in inputs;
    if j < c {
      assert inputs[|sites| + j] == Cell(sites[j].enable, Some(1), "1") && inputs[|sites| + j] in inputs;
    }
    forall x | x in inputs && x.register == sites[j].enable ensures j < c && x.value == Some(1) {
      EnableCells(sites, c, j, x);
    }
    hide InputsFor, Find, OwnInputs;
    FindIs(inputs, sites[j].enable);
    FindIs(inputs, sites[j].value);
  }

  /** Only the first `c` enables have cells, and they read 1. */
  lemma EnableCells(sites: seq<Site>, c: nat, j: nat, x: Cell)
    requires OwnInputs(sites) && c <= |sites| && j < |sites| && x in InputsFor(sites, c)
            && x.register == sites[j].enable
    ensures j < c && x.value == Some(1)
  {
    var inputs := InputsFor(sites, c);
    var k :| 0 <= k < |inputs| && inputs[k] == x;
    hide Find;
    assert k < |sites| ==> inputs[k].register == sites[k].value;
    assert k >= |sites|;
    assert x == Cell(sites[k - |sites|].enable, Some(1), "1");
  }

  lemma {:induction false} FirstOnes(n: nat, c: nat)
    requires c <= n
    ensures Ones(seq(n, i => i < c)) == c
    decreases n
  {
    if n > 0 {
      var flags := seq(n, i => i < c);
      if c < n {
        FirstOnes(n - 1, c);
        assert flags[..n - 1] == seq(n - 1, i => i < c);
      } else {
        FirstOnes(n - 1, n - 1);
        assert flags[..n - 1] == seq(n - 1, i => i < n - 1);
      }
    }
  }

  /** The cycle enables exactly `c` sites, and reports something when `c > 0` fits. */
  lemma InputsForCount(n: Names, cycle: nat, c: nat)
    requires OwnInputs(n.sites) && c <= |n.sites|
    ensures var s := Step(cycle, InputsFor(n.sites, c));
            |Enabled(n, s)| == c && (c > 0 ==> Reported(Enabled(n, s), s.inputs) != [])
  {
    var sites, inputs := n.sites, InputsFor(n.sites, c);
    var flags := Enables(sites, inputs);
    forall j | 0 <= j < |sites| ensures flags[j] == (j < c) {
      InputsForOn(sites, c, j);
    }
    assert flags == seq(|sites|, i => i < c);
    FirstOnes(|sites|, c);
    SelectMasked(sites, flags, true);
    if c > 0 {
      var x := Select(sites, flags)[0];
      SelectMembers(sites, flags, x);
      var j :| 0 <= j < |sites| && flags[j] && sites[j] == x;
      InputsForOn(sites, c, j);
      ReportedMembers(Select(sites, flags), inputs, FaultOf(x, Find(inputs, x.value).value));
    }
  }

  /** Numbered from 0, quiet through the warm-up, then one cycle for each count. */
  function Trace(sites: seq<Site>, warmup: nat, asks: seq<nat>): (steps: seq<Step>)
    requires AtMost(asks, |sites|)
    ensures |steps| == warmup + |asks|
  {
    seq(warmup + |asks|, i requires 0 <= i < warmup + |asks| =>
      Step(i, if i < warmup then [] else InputsFor(sites, asks[i - warmup])))
  }

  lemma {:induction false} ZerosFirst(k: nat, n: nat, asks: seq<nat>)
    ensures Charge(k, seq(n, _ => 0) + asks) == Charge(k, asks)
    decreases |asks|, n
  {
    if asks != [] {
      var init := asks[..|asks| - 1];
      ZerosFirst(k, n, init);
      assert (seq(n, _ => 0) + asks)[..n + |asks| - 1] == seq(n, _ => 0) + init;
    } else if n > 0 {
      ZerosFirst(k, n - 1, []);
      assert seq(n, _ => 0) + [] == (seq(n - 1, _ => 0) + []) + [0];
      ChargeSnoc(k, seq(n - 1, _ => 0) + [], 0);
    } else {
      assert seq(0, _ => 0) + [] == [];
    }
  }

  lemma TraceAsks(n: Names, asks: seq<nat>)
    requires OwnInputs(n.sites) && AtMost(asks, |n.sites|)
    ensures Asks(n, Trace(n.sites, n.warmup, asks)) == seq(n.warmup, _ => 0) + asks
  {
    hide Enabled;
    forall i | n.warmup <= i < n.warmup + |asks|
      ensures Ask(n, Trace(n.sites, n.warmup, asks)[i]) == asks[i - n.warmup] {
      InputsForCount(n, i, asks[i - n.warmup]);
    }
  }

  // ---- exactly when -----------------------------------------------------------------------------------------------

  ghost predicate SomeTraceSilences(n: Names, more: Names) {
    exists steps, i :: Numbered(steps) && Silenced(n, more, steps, i)
  }

  /** Between two budgets no trace whatever silences a cycle, unless the counts can. */
  lemma SilencedOnlyIf(n: Names, more: Names, steps: seq<Step>, i: nat)
    requires more.sites == n.sites && more.warmup == n.warmup && n.budget.Some? && more.budget.Some?
    requires n.budget.value < more.budget.value && Silenced(n, more, steps, i)
    ensures CanSilence(|n.sites|, n.budget.value, more.budget.value)
  {
    var k, l, before := n.budget.value, more.budget.value, steps[..i];
    SilencedFires(n, more, steps, i);
    SpentIsCharge(n, before);
    SpentIsCharge(more, before);
    AsksAtMost(n, before);
    assert Asks(more, before) == Asks(n, before);
    SelectAtMost(n.sites, Enables(n.sites, steps[i].inputs));
    SameEnabled(n, more, steps[i]);
    assert Silences(k, l, Asks(n, before), |Enabled(n, steps[i])|);
    if !CanSilence(|n.sites|, k, l) {
      NeverSilenced(|n.sites|, k, l, Asks(n, before), |Enabled(n, steps[i])|);
    }
  }

  lemma SilencingTrace(n: Names, more: Names) returns (steps: seq<Step>, i: nat)
    requires OwnInputs(n.sites) && more.sites == n.sites && more.warmup == n.warmup && n.budget.Some?
            && more.budget.Some?
    requires n.budget.value < more.budget.value && CanSilence(|n.sites|, n.budget.value, more.budget.value)
    ensures Numbered(steps) && Silenced(n, more, steps, i)
  {
    var k, l, sites, w := n.budget.value, more.budget.value, n.sites, n.warmup;
    var asks := SomeSilenced(|sites|, k, l);
    var all := asks + [1];
    steps := Trace(sites, w, all);
    i := w + |asks|;
    hide Enabled, Reported, Fired, InputsFor;
    assert steps[..i] == Trace(sites, w, asks);
    TraceAsks(n, asks);
    TraceAsks(more, asks);
    ZerosFirst(k, w, asks);
    ZerosFirst(l, w, asks);
    SpentIsCharge(n, steps[..i]);
    SpentIsCharge(more, steps[..i]);
    assert all[|asks|] == 1;
    InputsForCount(n, i, 1);
    SameEnabled(n, more, steps[i]);
    FiredAt(n, steps, i);
    FiredAt(more, steps, i);
  }

  /** Raising a budget from `k` to `l` can silence a cycle, on some trace from reset, if and only if there is a budget
      to begin with and three sites, or two sites and an odd difference. */
  lemma SilencesExactly(sites: seq<Site>, warmup: nat, k: nat, l: nat)
    requires OwnInputs(sites) && k < l
    ensures SomeTraceSilences(Names(sites, Some(k), warmup), Names(sites, Some(l), warmup))
       <==> k >= 1 && (|sites| >= 3 || (|sites| == 2 && (l - k) % 2 == 1))
  {
    var n, more := Names(sites, Some(k), warmup), Names(sites, Some(l), warmup);
    hide Silenced;
    if SomeTraceSilences(n, more) {
      var steps, i :| Numbered(steps) && Silenced(n, more, steps, i);
      SilencedOnlyIf(n, more, steps, i);
    }
    if CanSilence(|sites|, k, l) {
      var steps, i := SilencingTrace(n, more);
    }
  }
}
