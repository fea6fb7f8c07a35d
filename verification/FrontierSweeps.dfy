/**
 What a sweep of `scripts/bitcap_frontier.py` probes and reports, case by case of how its walk over the seeds ends, and
 what the flag of its report says.
 */
module FrontierSweeps {
  import opened Basics
  import opened Frontier

  // ---- how the walk ends ------------------------------------------------------------------------------------------

  /** The walk finds the first `n` seeds deciding. */
  predicate DecidesUpTo(f: Oracle, seeds: seq<nat>, n: nat) {
    n <= |seeds| && forall i :: 0 <= i < n ==> f(seeds[i]).Decided?
  }

  /** The seed at `i` is over the ceiling, and none before it is. */
  predicate FirstWide(sh: Shape, i: nat)
    requires i < |sh.seeds|
  {
    OverCeiling(sh, sh.seeds[i]) && forall j :: 0 <= j < i ==> !OverCeiling(sh, sh.seeds[j])
  }

  /** The walk meets a seed that cannot run: the sweep probes the seeds up to that one and nothing more, and its ladder
      row is the first of them over the ceiling, the one that cannot run included. */
  lemma UnrunnableEndsTheSweep(sh: Shape, f: Oracle, maxProbes: nat, r: Report, n: nat)
    requires Increasing(sh.seeds) && !sh.fixed && Reports(sh, f, maxProbes, r)
    requires n < |sh.seeds| && DecidesUpTo(f, sh.seeds, n) && f(sh.seeds[n]).Unrunnable?
    ensures r.probes == sh.seeds[..n + 1]
    ensures r.largest == (if n > 0 then Some(sh.seeds[n - 1]) else None) && r.first == None && !r.nonMonotone
    ensures forall i :: 0 <= i <= n && FirstWide(sh, i) ==> r.ladder == Some(sh.seeds[i])
    ensures (forall i :: 0 <= i <= n ==> !OverCeiling(sh, sh.seeds[i])) ==> r.ladder == None
  {
    WalkedIs(f, sh.seeds, n);
    var probes := sh.seeds[..n + 1];
    assert sh.seeds[n] in probes && !AllRun(f, probes);
    assert Searched(sh, f, maxProbes) == probes + [] + [];
    assert r.probes == probes;
    RunReport(sh, f, r, n);
    forall i | 0 <= i <= n && FirstWide(sh, i) ensures r.ladder == Some(sh.seeds[i]) {
      assert probes[i] in probes;
    }
  }

  /** The report over a walk that ends at a seed that cannot run. */
  lemma RunReport(sh: Shape, f: Oracle, r: Report, n: nat)
    requires Increasing(sh.seeds) && Honest(sh, f, r) && n < |sh.seeds| && r.probes == sh.seeds[..n + 1]
    requires DecidesUpTo(f, sh.seeds, n) && f(sh.seeds[n]).Unrunnable?
    ensures r.largest == (if n > 0 then Some(sh.seeds[n - 1]) else None) && r.first == None && !r.nonMonotone
  {
    forall k | k in r.probes ensures !f(k).Undecided? && (f(k).Decided? ==> n > 0 && k <= sh.seeds[n - 1]) {
      var i :| 0 <= i <= n && k == sh.seeds[i];
    }
    if n > 0 {
      assert r.probes[n - 1] in r.probes;
    }
  }

  /** Every seed decides: the sweep probes the seeds and names the last. */
  lemma AllSeedsDecide(sh: Shape, f: Oracle, maxProbes: nat, r: Report)
    requires Increasing(sh.seeds) && !sh.fixed && Reports(sh, f, maxProbes, r) && sh.seeds != []
    requires DecidesUpTo(f, sh.seeds, |sh.seeds|)
    ensures r.probes == sh.seeds && r.largest == Some(sh.seeds[|sh.seeds| - 1]) && r.first == None
  {
    WalkedIs(f, sh.seeds, |sh.seeds|);
    assert Searched(sh, f, maxProbes) == sh.seeds + [] + [];
    LadderKIs(sh, sh.seeds);
    assert r.probes == sh.seeds;
    assert sh.seeds[|sh.seeds| - 1] in r.probes;
  }

  /** The first seed does not decide: after it comes the second seed, when there is one and a probe is left, and then at
      most the ladder's size. */
  lemma FirstSeedUndecided(sh: Shape, f: Oracle, maxProbes: nat)
    requires Increasing(sh.seeds) && !sh.fixed && sh.seeds != [] && f(sh.seeds[0]).Undecided?
    ensures Searched(sh, f, maxProbes) ==
            if |sh.seeds| > 1 && maxProbes > 0 then [sh.seeds[0], sh.seeds[1]] else [sh.seeds[0]]
  {
    WalkedIs(f, sh.seeds, 0);
    var walk := [sh.seeds[0]];
    assert WalkProbes(f, sh.seeds) == walk && BisectProbes(sh, f, maxProbes) == [] && walk + [] == walk;
    FirstBeyondIs(sh.seeds, sh.seeds[0], walk);
    var k := FirstBeyond(sh.seeds, sh.seeds[0], walk);
    if |sh.seeds| > 1 {
      SecondIsNext(sh.seeds, k.value);
    }
  }

  lemma SecondIsNext(seeds: seq<nat>, k: nat)
    requires Increasing(seeds) && |seeds| > 1 && k in seeds && k > seeds[0]
    requires forall s :: s in seeds && seeds[0] < s < k ==> s in [seeds[0]]
    ensures k == seeds[1]
  {
    assert seeds[1] in seeds && seeds[1] != seeds[0];
    var i :| 0 <= i < |seeds| && seeds[i] == k;
  }

  /** The walk brackets the frontier: then come the middles of the bisection, and, while the budget lasts, the smallest
      unprobed seed past the non-decider the bisection ends at; nothing else but the ladder's size. */
  lemma BracketSearched(sh: Shape, f: Oracle, maxProbes: nat, n: nat)
    requires Increasing(sh.seeds) && !sh.fixed && 0 < n < |sh.seeds|
    requires DecidesUpTo(f, sh.seeds, n) && f(sh.seeds[n]).Undecided?
    ensures var mids := Mids(f, sh.seeds[n - 1], sh.seeds[n], maxProbes);
            var bad := Bisect(f, sh.seeds[n - 1], sh.seeds[n], maxProbes).1;
            var before, all := sh.seeds[..n + 1] + mids, Searched(sh, f, maxProbes);
            && before <= all && |all| <= |before| + 1
            && (|all| > |before| <==> |mids| < maxProbes && exists s :: s in sh.seeds && s > bad && s !in before)
            && (|all| > |before| ==> IsNextSeed(sh.seeds, bad, before, all[|before|]))
  {
    WalkedIs(f, sh.seeds, n);
    var mids := Mids(f, sh.seeds[n - 1], sh.seeds[n], maxProbes);
    var bad := Bisect(f, sh.seeds[n - 1], sh.seeds[n], maxProbes).1;
    var before := sh.seeds[..n + 1] + mids;
    assert WalkProbes(f, sh.seeds) + BisectProbes(sh, f, maxProbes) == before;
    FirstBeyondIs(sh.seeds, bad, before);
    assert |mids| <= maxProbes by {
      SeedsAscend(sh.seeds, n);
      MidsRange(f, sh.seeds[n - 1], sh.seeds[n], maxProbes);
    }
  }

  /** `s` is the smallest seed past `bad` that has not been probed. */
  predicate IsNextSeed(seeds: seq<nat>, bad: nat, probes: seq<nat>, s: nat) {
    s in seeds && s > bad && s !in probes && forall t :: t in seeds && bad < t < s ==> t in probes
  }

  /** The first middle halves the bracket, the lower half being the shorter of an odd one; the rest of the bisection is
      that of the half the engine chooses. */
  lemma MiddleHalves(f: Oracle, lo: nat, hi: nat, m: nat)
    requires hi - lo > 1 && m > 0
    ensures var mids := Mids(f, lo, hi, m);
            && mids != [] && 0 <= (hi - mids[0]) - (mids[0] - lo) <= 1
            && mids[1..] == (if f(mids[0]).Decided? then Mids(f, mids[0], hi, m - 1) else Mids(f, lo, mids[0], m - 1))
  {
    var mid := (lo + hi) / 2;
    assert Mids(f, lo, hi, m)[1..] == if f(mid).Decided? then Mids(f, mid, hi, m - 1) else Mids(f, lo, mid, m - 1);
  }

  // ---- the ladder row ---------------------------------------------------------------------------------------------

  /** The smallest seed over the ceiling is probed last, exactly when there is one, it was not probed before and every
      probe so far could run; with one that could not, the search is the whole sweep. */
  lemma LadderExactly(sh: Shape, f: Oracle, maxProbes: nat, r: Report, s: nat)
    requires Increasing(sh.seeds) && !sh.fixed && Reports(sh, f, maxProbes, r)
    requires s in sh.seeds && OverCeiling(sh, s) && forall t :: t in sh.seeds && OverCeiling(sh, t) ==> s <= t
    ensures var before := Searched(sh, f, maxProbes);
            r.probes == if s !in before && AllRun(f, before) then before + [s] else before
  {
    LadderKIs(sh, sh.seeds);
  }

  lemma NoLadder(sh: Shape, f: Oracle, maxProbes: nat, r: Report)
    requires !sh.fixed && Reports(sh, f, maxProbes, r) && forall s :: s in sh.seeds ==> !OverCeiling(sh, s)
    ensures r.probes == Searched(sh, f, maxProbes)
  {
    LadderKIs(sh, sh.seeds);
  }

  // ---- the report -------------------------------------------------------------------------------------------------

  /** A fixed design is probed once. */
  lemma FixedIsProbedOnce(sh: Shape, f: Oracle, maxProbes: nat, r: Report)
    requires sh.fixed && Reports(sh, f, maxProbes, r)
    ensures r.probes == [0] && !r.nonMonotone
    ensures (r.largest == Some(0) <==> f(0).Decided?) && (r.first == Some(0) <==> f(0).Undecided?)
  {
    assert 0 in r.probes;
  }

  /** The flag is raised exactly when the report names a first non-decider below the largest decider. */
  lemma FlagExactly(sh: Shape, f: Oracle, r: Report)
    requires Honest(sh, f, r)
    ensures r.nonMonotone <==> r.largest.Some? && r.first.Some? && r.first.value < r.largest.value
  {
  }

  lemma {:induction false} NeighboursIncrease(seeds: seq<nat>)
    requires forall i :: 0 <= i < |seeds| - 1 ==> seeds[i] < seeds[i + 1]
    ensures Increasing(seeds)
  {
    if |seeds| > 1 {
      var n := |seeds| - 1;
      NeighboursIncrease(seeds[..n]);
      assert seeds[n - 1] < seeds[n] && forall i :: 0 <= i < n - 1 ==> seeds[..n][i] < seeds[..n][n - 1];
    }
  }

  const RASTER_SEEDS := [4, 8, 10, 12, 15, 16, 30, 31, 62, 63, 64, 126, 127, 128, 183]

  /** The raster's seeds, whose target literal cannot be read past 62 bits: the sweep ends there, without a row for the
      ceiling, although a seed over it is left. */
  lemma RasterReach(sh: Shape, f: Oracle, maxProbes: nat, r: Report)
    requires sh.seeds == RASTER_SEEDS && !sh.fixed && (forall k :: sh.cone(k) == Some(10 + k))
    requires Reports(sh, f, maxProbes, r) && forall k :: f(k) == if k <= 62 then Decided else Unrunnable
    ensures r.probes == RASTER_SEEDS[..10] && r.largest == Some(62) && r.ladder == None
    ensures OverCeiling(sh, 183)
  {
    hide Reports, Honest;
    NeighboursIncrease(sh.seeds);
    UnrunnableEndsTheSweep(sh, f, maxProbes, r, 9);
  }
}
