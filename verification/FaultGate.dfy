/**
 The gate that `crates/mununu-core/src/adapter/btor2/fault.rs` puts into the model and that decides what is injected,
 with its bit widths. What `Faults` reports is proved to be what the gate does.
 */
module FaultGate {

  import opened Arith
  import opened Basics
  import opened Faults

  // ---- the gate in the model --------------------------------------------------------------------------------------

  /** The warm-up clock and the injection counter. */
  datatype Gate = Gate(clock: nat, count: nat)

  function ClockWidth(warmup: nat): nat { BitLength(warmup) }

  /** Wide enough for the budget plus all sites. */
  function CountWidth(k: nat, sites: nat): nat {
    if BitLength(k + sites + 1) > 1 then BitLength(k + sites + 1) else 1
  }

  function NextClock(warmup: nat, clock: nat): nat {
    if warmup == 0 || clock >= warmup then clock else (clock + 1) % Pow2(ClockWidth(warmup))
  }

  predicate Warm(warmup: nat, clock: nat) { warmup == 0 || clock >= warmup }

  /** A sum of single bits in `bits` bits. */
  function BitSum(flags: seq<bool>, bits: nat): nat {
    if flags == [] then 0
    else (BitSum(flags[..|flags| - 1], bits) + if flags[|flags| - 1] then 1 else 0) % Pow2(bits)
  }

  /** The comparison, one bit wider than the counter. */
  predicate Within(k: nat, bits: nat, count: nat, ens: seq<bool>) {
    (count + BitSum(ens, bits)) % Pow2(bits + 1) <= k
  }

  /** Which sites inject in this cycle. */
  function Injects(n: Names, g: Gate, flags: seq<bool>): (r: seq<bool>)
    ensures |r| == |flags|
  {
    var ens := Masked(flags, Warm(n.warmup, g.clock));
    match n.budget
    case None => ens
    case Some(k) => Masked(ens, Within(k, CountWidth(k, |flags|), g.count, ens))
  }

  function NextGate(n: Names, g: Gate, flags: seq<bool>): Gate {
    Gate(NextClock(n.warmup, g.clock),
         match n.budget
         case None => g.count
         case Some(k) =>
           var bits := CountWidth(k, |flags|);
           (g.count + BitSum(Injects(n, g, flags), bits)) % Pow2(bits))
  }

  function GateAfter(n: Names, steps: seq<Step>): Gate {
    if steps == [] then Gate(0, 0)
    else NextGate(n, GateAfter(n, steps[..|steps| - 1]), Enables(n.sites, steps[|steps| - 1].inputs))
  }

  // ---- the gate is the rule -------------------------------------------------------------------------------------

  lemma {:induction false} BitSumIsOnes(flags: seq<bool>, bits: nat)
    requires |flags| < Pow2(bits)
    ensures BitSum(flags, bits) == Ones(flags)
  {
    hide Pow2;
    OnesAtMost(flags);
    if flags != [] {
      BitSumIsOnes(flags[..|flags| - 1], bits);
      ModAtMost(Ones(flags), Pow2(bits));
    }
  }

  lemma CountFits(k: nat, sites: nat)
    ensures k + sites + 1 < Pow2(CountWidth(k, sites))
  {
    BitLengthFits(k + sites + 1);
    Pow2Monotone(BitLength(k + sites + 1), CountWidth(k, sites));
  }

  /** Both registers are as narrow as they can be: the clock holds the warm-up, the counter the budget, all sites and
      one more. */
  lemma WidthsAreLeast(warmup: nat, k: nat, sites: nat)
    ensures warmup < Pow2(ClockWidth(warmup)) && (warmup > 0 ==> Pow2(ClockWidth(warmup) - 1) <= warmup)
    ensures Pow2(CountWidth(k, sites) - 1) <= k + sites + 1 < Pow2(CountWidth(k, sites))
  {
    BitLengthFits(warmup);
    BitLengthFits(k + sites + 1);
    CountFits(k, sites);
    assert Pow2(0) == 1;
  }

  /** The comparison never wraps, whatever the counter holds: also in states no run reaches, sites are within the
      budget only if the counter plus the enables is. */
  lemma ComparisonIsExact(k: nat, count: nat, ens: seq<bool>)
    requires count < Pow2(CountWidth(k, |ens|))
    ensures Within(k, CountWidth(k, |ens|), count, ens) <==> count + Ones(ens) <= k
  {
    var bits := CountWidth(k, |ens|);
    CountFits(k, |ens|);
    assert Pow2(bits + 1) == 2 * Pow2(bits);
    hide Pow2, CountWidth;
    OnesAtMost(ens);
    BitSumIsOnes(ens, bits);
    ModAtMost(count + Ones(ens), Pow2(bits + 1));
  }

  /** One cycle of the gate: the sites that inject are the enabled ones exactly when the rule fires, and the counter
      keeps count. */
  lemma GateStep(n: Names, g: Gate, s: Step)
    requires (n.budget.Some? ==> g.count <= n.budget.value) && (Warm(n.warmup, g.clock) <==> s.cycle >= n.warmup)
    ensures var flags := Enables(n.sites, s.inputs);
            && Select(n.sites, Injects(n, g, flags)) == (if Fires(n, s, g.count) then Enabled(n, s) else [])
            && (n.budget.Some? ==>
                 NextGate(n, g, flags).count == if Fires(n, s, g.count) then g.count + |Enabled(n, s)| else g.count)
  {
    var flags := Enables(n.sites, s.inputs);
    var warm := Warm(n.warmup, g.clock);
    var ens := Masked(flags, warm);
    hide Enables, Warm, Pow2, BitSum, Select, Ones;
    SelectMasked(n.sites, flags, warm);
    if n.budget.Some? {
      var k, bits := n.budget.value, CountWidth(n.budget.value, |flags|);
      CountFits(k, |flags|);
      ComparisonIsExact(k, g.count, ens);
      var ok := Within(k, bits, g.count, ens);
      SelectMasked(n.sites, ens, ok);
      BitSumIsOnes(Masked(ens, ok), bits);
      OnesAtMost(ens);
      ModAtMost(g.count + Ones(Masked(ens, ok)), Pow2(bits));
    }
  }

  lemma {:induction false} ClockSaturates(n: Names, steps: seq<Step>)
    ensures n.warmup > 0 ==> GateAfter(n, steps).clock == if |steps| < n.warmup then |steps| else n.warmup
  {
    hide NextClock;
    if steps != [] && n.warmup > 0 {
      ClockSaturates(n, steps[..|steps| - 1]);
      ClockStep(n.warmup, GateAfter(n, steps[..|steps| - 1]).clock);
    }
  }

  lemma ClockStep(warmup: nat, clock: nat)
    requires 0 < warmup && clock <= warmup
    ensures NextClock(warmup, clock) == if clock < warmup then clock + 1 else warmup
  {
    hide Pow2;
    BitLengthFits(warmup);
    if clock < warmup {
      ModAtMost(clock + 1, Pow2(ClockWidth(warmup)));
    }
  }

  /** What the gate injects in cycle `i`. */
  function Injected(n: Names, steps: seq<Step>, i: nat): seq<Fault>
    requires i < |steps|
  {
    var inputs := steps[i].inputs;
    Reported(Select(n.sites, Injects(n, GateAfter(n, steps[..i]), Enables(n.sites, inputs))), inputs)
  }

  /** On every trace numbered from 0 the gate's counter holds what the report has charged, and in each cycle the sites
      it injects at, with their values, are the reported ones: the report is exactly what the model did. */
  lemma {:induction false} ReportIsWhatHappened(n: Names, steps: seq<Step>)
    requires Numbered(steps)
    ensures n.budget.Some? ==> GateAfter(n, steps).count == Spent(n, steps)
    ensures forall i :: 0 <= i < |steps| ==>
              Fired(n, steps)[i] == Injected(n, steps, i)
  {
    hide Injects, Enables, Select, Reported, Fires, NextGate, Enabled;
    if steps != [] {
      var init, s := steps[..|steps| - 1], steps[|steps| - 1];
      ReportIsWhatHappened(n, init);
      CycleAgrees(n, init, s);
      forall i | 0 <= i < |steps| - 1 ensures
          Fired(n, steps)[i] == Injected(n, steps, i) {
        assert init[i] == steps[i] && init[..i] == steps[..i];
      }
    }
  }

  lemma CycleAgrees(n: Names, init: seq<Step>, s: Step)
    requires s.cycle == |init| && (n.budget.Some? ==> GateAfter(n, init).count == Spent(n, init))
    ensures var g, flags := GateAfter(n, init), Enables(n.sites, s.inputs);
            && (if Fires(n, s, Spent(n, init)) then Reported(Enabled(n, s), s.inputs) else [])
               == Reported(Select(n.sites, Injects(n, g, flags)), s.inputs)
            && (n.budget.Some? ==>
                  NextGate(n, g, flags).count ==
                      if Fires(n, s, Spent(n, init)) then Spent(n, init) + |Enabled(n, s)| else Spent(n, init))
  {
    hide Enabled, Injects, NextGate;
    ClockSaturates(n, init);
    BudgetNeverExceeded(n, init);
    GateStep(n, GateAfter(n, init), s);
    assert Reported([], s.inputs) == [];
  }
}
