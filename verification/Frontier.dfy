/**
 The frontier search of `scripts/bitcap_frontier.py`: the largest size an exact engine decides and the smallest it
 does not, from a walk over seed sizes, a bisection within a probe budget, and two extra looks.
 */
module Frontier {

  import opened Arith
  import opened Basics

  /** What one probe says; a probe the tool refuses to run is neither deciding nor undecided. */
  datatype Reading = Decided | Undecided | Unrunnable

  type Oracle = nat -> Reading

  /** `seeds` ascend; `cone` is the width of the model at a size, where a formula gives it. */
  datatype Shape = Shape(seeds: seq<nat>, cone: nat -> Option<nat>, fixed: bool)

  datatype Report = Report(probes: seq<nat>, largest: Option<nat>, first: Option<nat>, nonMonotone: bool,
                           ladder: Option<nat>)

  const CEILING := 192

  predicate OverCeiling(sh: Shape, k: nat) { sh.cone(k).Some? && sh.cone(k).value > CEILING }

  predicate Increasing(s: seq<nat>) {
    forall i, j :: 0 <= i < j < |s| ==> s[i] < s[j]
  }

  // ---- bisection -------------------------------------------------------------------------------------------------

  /** The bracket after at most `m` probes. */
  function Bisect(f: Oracle, lo: nat, hi: nat, m: nat): (nat, nat)
    decreases m
  {
    if hi - lo <= 1 || m == 0 then (lo, hi)
    else
      var mid := (lo + hi) / 2;
      if f(mid).Decided? then Bisect(f, mid, hi, m - 1) else Bisect(f, lo, mid, m - 1)
  }

  /** Whatever the oracle, the bracket keeps a deciding lower and a non-deciding upper end, inside the first one. */
  lemma {:induction false} BisectBrackets(f: Oracle, lo: nat, hi: nat, m: nat)
    requires lo < hi && f(lo).Decided? && !f(hi).Decided?
    ensures var (a, b) := Bisect(f, lo, hi, m);
            lo <= a < b <= hi && f(a).Decided? && !f(b).Decided?
    decreases m
  {
    if hi - lo > 1 && m > 0 {
      var mid := (lo + hi) / 2;
      if f(mid).Decided? {
        BisectBrackets(f, mid, hi, m - 1);
      } else {
        BisectBrackets(f, lo, mid, m - 1);
      }
    }
  }

  lemma {:induction false} BisectAdjacent(f: Oracle, lo: nat, hi: nat, m: nat)
    requires lo < hi && hi - lo <= Pow2(m)
    ensures var (a, b) := Bisect(f, lo, hi, m); b - a == 1
    decreases m
  {
    if hi - lo > 1 && m > 0 {
      var mid := (lo + hi) / 2;
      if f(mid).Decided? {
        BisectAdjacent(f, mid, hi, m - 1);
      } else {
        BisectAdjacent(f, lo, mid, m - 1);
      }
    }
  }

  /** The engine that decides exactly the sizes up to `t`. */
  function Threshold(t: nat): Oracle { (k: nat) => if k <= t then Decided else Undecided }

  lemma {:induction false} MissedThreshold(lo: nat, hi: nat, m: nat) returns (t: nat)
    requires lo < hi && hi - lo > Pow2(m)
    ensures lo <= t < hi && Bisect(Threshold(t), lo, hi, m) != (t, t + 1)
    decreases m
  {
    if m == 0 {
      t := lo;
    } else {
      var mid := (lo + hi) / 2;
      if mid - lo > Pow2(m - 1) {
        t := MissedThreshold(lo, mid, m - 1);
      } else {
        t := MissedThreshold(mid, hi, m - 1);
      }
    }
  }

  /** The budget is exact: `m` probes find every threshold in the bracket if and only if its gap is at most 2^m. */
  lemma BudgetExactly(lo: nat, hi: nat, m: nat)
    requires lo < hi
    ensures (forall t :: lo <= t < hi ==> Bisect(Threshold(t), lo, hi, m) == (t, t + 1)) <==> hi - lo <= Pow2(m)
  {
    if hi - lo <= Pow2(m) {
      forall t | lo <= t < hi ensures Bisect(Threshold(t), lo, hi, m) == (t, t + 1) {
        BisectBrackets(Threshold(t), lo, hi, m);
        BisectAdjacent(Threshold(t), lo, hi, m);
      }
    } else {
      var t := MissedThreshold(lo, hi, m);
    }
  }

  // ---- the report -------------------------------------------------------------------------------------------------

  predicate Largest(f: Oracle, probes: seq<nat>, best: Option<nat>) {
    match best
    case None => forall k :: k in probes ==> !f(k).Decided?
    case Some(b) => b in probes && f(b).Decided? && forall k :: k in probes && f(k).Decided? ==> k <= b
  }

  predicate Smallest(f: Oracle, probes: seq<nat>, first: Option<nat>) {
    match first
    case None => forall k :: k in probes ==> !f(k).Undecided?
    case Some(b) => b in probes && f(b).Undecided? && forall k :: k in probes && f(k).Undecided? ==> b <= k
  }

  predicate SmallestWide(sh: Shape, probes: seq<nat>, row: Option<nat>) {
    match row
    case None => forall k :: k in probes ==> !OverCeiling(sh, k)
    case Some(b) => b in probes && OverCeiling(sh, b) && forall k :: k in probes && OverCeiling(sh, k) ==> b <= k
  }

  /** A report over its own probes. */
  predicate Honest(sh: Shape, f: Oracle, r: Report) {
    && Largest(f, r.probes, r.largest)
    && Smallest(f, r.probes, r.first)
    && SmallestWide(sh, r.probes, r.ladder)
    && (r.nonMonotone <==> exists b, o :: b in r.probes && o in r.probes && b < o && f(b).Undecided? && f(o).Decided?)
  }

  ghost predicate DownwardClosed(f: Oracle) {
    forall j: nat, k: nat :: j < k && f(k).Decided? ==> f(j).Decided?
  }

  /** A flag always witnesses an engine that is not downward-closed. */
  lemma FlagIsSound(sh: Shape, f: Oracle, r: Report)
    requires Honest(sh, f, r) && r.nonMonotone
    ensures !DownwardClosed(f)
  {
  }

  // ---- the search -----------------------------------------------------------------------------------------------

  /** How many seeds the walk finds deciding before it stops. */
  function Walked(f: Oracle, seeds: seq<nat>): (n: nat)
    ensures n <= |seeds| && (forall i :: 0 <= i < n ==> f(seeds[i]).Decided?) && (n < |seeds| ==> !f(seeds[n]).Decided?)
  {
    if seeds == [] || !f(seeds[0]).Decided? then 0 else 1 + Walked(f, seeds[1..])
  }

  /** The walk ends between a deciding seed and one that does not decide. */
  predicate Bracketed(f: Oracle, seeds: seq<nat>) {
    var n := Walked(f, seeds);
    0 < n < |seeds| && f(seeds[n]).Undecided?
  }

  lemma {:induction false} WalkedIs(f: Oracle, seeds: seq<nat>, n: nat)
    requires n <= |seeds| && (forall i :: 0 <= i < n ==> f(seeds[i]).Decided?)
            && (n < |seeds| ==> !f(seeds[n]).Decided?)
    ensures Walked(f, seeds) == n
  {
    if n > 0 {
      WalkedIs(f, seeds[1..], n - 1);
    }
  }

  /** The sizes the walk probes: the deciding ones and the one it stops at. */
  function WalkProbes(f: Oracle, seeds: seq<nat>): seq<nat> {
    if Walked(f, seeds) < |seeds| then seeds[..Walked(f, seeds) + 1] else seeds
  }

  /** The sizes a bisection probes, in order. */
  function Mids(f: Oracle, lo: nat, hi: nat, m: nat): seq<nat>
    decreases m
  {
    if hi - lo <= 1 || m == 0 then []
    else
      var mid := (lo + hi) / 2;
      [mid] + if f(mid).Decided? then Mids(f, mid, hi, m - 1) else Mids(f, lo, mid, m - 1)
  }

  function Middle(lo: nat, hi: nat): (mid: nat)
    requires hi - lo > 1
    ensures lo < mid < hi
  {
    (lo + hi) / 2
  }

  /** The half of the bracket that is left after probing its middle. */
  function Half(f: Oracle, lo: nat, hi: nat): (h: (nat, nat))
    requires hi - lo > 1
    ensures h == (Middle(lo, hi), hi) || h == (lo, Middle(lo, hi))
  {
    if f(Middle(lo, hi)).Decided? then (Middle(lo, hi), hi) else (lo, Middle(lo, hi))
  }

  lemma BisectStep(f: Oracle, lo: nat, hi: nat, m: nat)
    requires hi - lo > 1 && m > 0
    ensures var h := Half(f, lo, hi);
            && Bisect(f, lo, hi, m) == Bisect(f, h.0, h.1, m - 1)
            && Mids(f, lo, hi, m) == [Middle(lo, hi)] + Mids(f, h.0, h.1, m - 1)
  {
  }

  lemma BisectEnd(f: Oracle, lo: nat, hi: nat, m: nat)
    requires hi - lo <= 1 || m == 0
    ensures Bisect(f, lo, hi, m) == (lo, hi) && Mids(f, lo, hi, m) == []
  {
  }

  lemma {:induction false} MidsRange(f: Oracle, lo: nat, hi: nat, m: nat)
    requires lo < hi
    ensures |Mids(f, lo, hi, m)| <= m && forall k :: k in Mids(f, lo, hi, m) ==> lo < k < hi
    decreases m
  {
    hide Bisect, Mids, Middle, Half;
    if hi - lo <= 1 || m == 0 {
      BisectEnd(f, lo, hi, m);
    } else {
      BisectStep(f, lo, hi, m);
      MidsRange(f, Half(f, lo, hi).0, Half(f, lo, hi).1, m - 1);
    }
  }

  lemma {:induction false} MidsDistinct(f: Oracle, lo: nat, hi: nat, m: nat)
    requires lo < hi
    ensures Distinct(Mids(f, lo, hi, m))
    decreases m
  {
    hide Bisect, Mids, Middle, Half;
    if hi - lo <= 1 || m == 0 {
      BisectEnd(f, lo, hi, m);
    } else {
      BisectStep(f, lo, hi, m);
      var h := Half(f, lo, hi);
      hide Distinct;
      MidsDistinct(f, h.0, h.1, m - 1);
      MidsRange(f, h.0, h.1, m - 1);
      MidIsNew(Middle(lo, hi), Mids(f, h.0, h.1, m - 1), h.0, h.1);
    }
  }

  lemma MidIsNew(mid: nat, rest: seq<nat>, a: nat, b: nat)
    requires Distinct(rest) && (mid == a || mid == b) && forall k :: k in rest ==> a < k < b
    ensures Distinct([mid] + rest)
  {
    hide Distinct;
    OneSize(mid);
    DistinctJoin([mid], rest);
  }

  lemma {:induction false} MidsEnds(f: Oracle, lo: nat, hi: nat, m: nat)
    requires lo < hi
    ensures EndsIn(f, lo, hi, m)
    decreases m
  {
    hide Bisect, Mids, Middle, Half;
    if hi - lo <= 1 || m == 0 {
      BisectEnd(f, lo, hi, m);
    } else {
      BisectStep(f, lo, hi, m);
      var h := Half(f, lo, hi);
      MidsEnds(f, h.0, h.1, m - 1);
      InTail(Middle(lo, hi), Mids(f, h.0, h.1, m - 1));
    }
  }

  lemma InTail(mid: nat, rest: seq<nat>)
    ensures mid in [mid] + rest && forall k :: k in rest ==> k in [mid] + rest
  {
  }

  /** The ends of the last bracket have been probed, or are those of the first. */
  predicate EndsIn(f: Oracle, lo: nat, hi: nat, m: nat) {
    var (a, b) := Bisect(f, lo, hi, m);
    (a in Mids(f, lo, hi, m) || a == lo) && (b in Mids(f, lo, hi, m) || b == hi)
  }

  /** A bisection stays within its budget, probes only inside the bracket and nothing twice, and ends at sizes it has
      probed or started from. */
  lemma MidsInside(f: Oracle, lo: nat, hi: nat, m: nat)
    requires lo < hi
    ensures |Mids(f, lo, hi, m)| <= m && Distinct(Mids(f, lo, hi, m)) && EndsIn(f, lo, hi, m)
    ensures forall k :: k in Mids(f, lo, hi, m) ==> lo < k < hi
  {
    hide *;
    MidsRange(f, lo, hi, m);
    MidsDistinct(f, lo, hi, m);
    MidsEnds(f, lo, hi, m);
  }

  /** The first seed past `bad` that is not among `probes`. */
  function FirstBeyond(seeds: seq<nat>, bad: nat, probes: seq<nat>): Option<nat> {
    if seeds == [] then None
    else if seeds[0] > bad && seeds[0] !in probes then Some(seeds[0])
    else FirstBeyond(seeds[1..], bad, probes)
  }

  /** The first of the seeds whose model is over the ceiling. */
  function LadderK(sh: Shape, seeds: seq<nat>): Option<nat> {
    if seeds == [] then None else if OverCeiling(sh, seeds[0]) then Some(seeds[0]) else LadderK(sh, seeds[1..])
  }

  function Listed(k: Option<nat>): seq<nat> { if k.Some? then [k.value] else [] }

  predicate AllRun(f: Oracle, probes: seq<nat>) {
    forall k :: k in probes ==> !f(k).Unrunnable?
  }

  /** The sizes of the bisection: none unless the walk has bracketed the frontier. */
  function BisectProbes(sh: Shape, f: Oracle, maxProbes: nat): seq<nat> {
    var n := Walked(f, sh.seeds);
    if Bracketed(f, sh.seeds) then Mids(f, sh.seeds[n - 1], sh.seeds[n], maxProbes) else []
  }

  /** The non-decider left after the bisection. */
  function LastBad(sh: Shape, f: Oracle, maxProbes: nat): Option<nat> {
    var n := Walked(f, sh.seeds);
    if n == |sh.seeds| || f(sh.seeds[n]).Unrunnable? then None
    else if n == 0 then Some(sh.seeds[0])
    else Some(Bisect(f, sh.seeds[n - 1], sh.seeds[n], maxProbes).1)
  }

  /** The look past it, while the budget lasts. */
  function Look(sh: Shape, f: Oracle, maxProbes: nat): Option<nat> {
    var bad := LastBad(sh, f, maxProbes);
    if bad.Some? && |BisectProbes(sh, f, maxProbes)| < maxProbes then
      FirstBeyond(sh.seeds, bad.value, WalkProbes(f, sh.seeds) + BisectProbes(sh, f, maxProbes))
    else None
  }

  /** Everything before the ladder. */
  function Searched(sh: Shape, f: Oracle, maxProbes: nat): seq<nat> {
    WalkProbes(f, sh.seeds) + BisectProbes(sh, f, maxProbes) + Listed(Look(sh, f, maxProbes))
  }

  /** The sizes one sweep probes, in order. */
  function Plan(sh: Shape, f: Oracle, maxProbes: nat): seq<nat> {
    if sh.fixed then [0]
    else
      var before, k := Searched(sh, f, maxProbes), LadderK(sh, sh.seeds);
      if k.Some? && k.value !in before && AllRun(f, before) then before + [k.value] else before
  }

  // ---- the program ----------------------------------------------------------------------------------------------

  /** The seed walk: the sizes probed, and the last deciding and first undecided of them. */
  method Walk(seeds: seq<nat>, f: Oracle) returns (probes: seq<nat>, lastOk: Option<nat>, firstBad: Option<nat>)
    requires Increasing(seeds)
    ensures probes == WalkProbes(f, seeds)
    ensures var n := Walked(f, seeds);
            && lastOk == (if n > 0 then Some(seeds[n - 1]) else None)
            && firstBad == (if n < |seeds| && f(seeds[n]).Undecided? then Some(seeds[n]) else None)
  {
    probes, lastOk, firstBad := [], None, None;
    for i := 0 to |seeds|
      invariant probes == seeds[..i] && firstBad == None
      invariant forall j :: 0 <= j < i ==> f(seeds[j]).Decided?
      invariant lastOk == if i > 0 then Some(seeds[i - 1]) else None
    {
      var k := seeds[i];
      probes := probes + [k];
      if f(k).Unrunnable? {
        WalkedIs(f, seeds, i);
        return;
      }
      if f(k).Decided? {
        lastOk := Some(k);
      } else {
        firstBad := Some(k);
        WalkedIs(f, seeds, i);
        return;
      }
    }
    WalkedIs(f, seeds, |seeds|);
  }

  /** Bisection to adjacency, within `budget` probes. */
  method Narrow(f: Oracle, lo: nat, hi: nat, budget: nat) returns (probed: seq<nat>, lastOk: nat, firstBad: nat)
    requires lo < hi && f(lo).Decided? && !f(hi).Decided?
    ensures (lastOk, firstBad) == Bisect(f, lo, hi, budget) && probed == Mids(f, lo, hi, budget)
  {
    probed, lastOk, firstBad := [], lo, hi;
    while firstBad - lastOk > 1 && |probed| < budget
      invariant lo <= lastOk < firstBad <= hi && |probed| <= budget
      invariant Bisect(f, lastOk, firstBad, budget - |probed|) == Bisect(f, lo, hi, budget)
      invariant probed + Mids(f, lastOk, firstBad, budget - |probed|) == Mids(f, lo, hi, budget)
    {
      hide Bisect, Mids;
      var mid := (lastOk + firstBad) / 2;
      BisectStep(f, lastOk, firstBad, budget - |probed|);
      var a, b := if f(mid).Decided? then mid else lastOk, if f(mid).Decided? then firstBad else mid;
      SeqAssoc(probed, [mid], Mids(f, a, b, budget - |probed| - 1));
      probed := probed + [mid];
      if f(mid).Decided? {
        lastOk := mid;
      } else {
        firstBad := mid;
      }
    }
  }

  method LookBeyond(seeds: seq<nat>, firstBad: nat, probes: seq<nat>) returns (k: Option<nat>)
    ensures k == FirstBeyond(seeds, firstBad, probes)
  {
    k := None;
    for i := 0 to |seeds|
      invariant k == None && FirstBeyond(seeds, firstBad, probes) == FirstBeyond(seeds[i..], firstBad, probes)
    {
      if seeds[i] > firstBad && seeds[i] !in probes {
        return Some(seeds[i]);
      }
    }
  }

  method LadderSize(sh: Shape) returns (k: Option<nat>)
    ensures k == LadderK(sh, sh.seeds)
  {
    k := None;
    for i := 0 to |sh.seeds|
      invariant k == None && LadderK(sh, sh.seeds) == LadderK(sh, sh.seeds[i..])
    {
      if OverCeiling(sh, sh.seeds[i]) {
        return Some(sh.seeds[i]);
      }
    }
  }

  /** The probes of one sweep. */
  method Probe(sh: Shape, f: Oracle, maxProbes: nat) returns (probes: seq<nat>)
    requires Increasing(sh.seeds)
    ensures probes == Plan(sh, f, maxProbes)
  {
    if sh.fixed {
      return [0];
    }
    hide Mids, Bisect, FirstBeyond, LadderK;
    var lastOk, firstBad;
    probes, lastOk, firstBad := Walk(sh.seeds, f);
    var walked := |probes|;
    if lastOk.Some? && firstBad.Some? {
      var probed, a, b := Narrow(f, lastOk.value, firstBad.value, maxProbes);
      probes, firstBad := probes + probed, Some(b);
    }
    assert probes == WalkProbes(f, sh.seeds) + BisectProbes(sh, f, maxProbes);
    assert firstBad == LastBad(sh, f, maxProbes);
    hide WalkProbes, BisectProbes, LastBad, Walked, Increasing;
    if firstBad.Some? && |probes| - walked < maxProbes {
      var k := LookBeyond(sh.seeds, firstBad.value, probes);
      if k.Some? {
        probes := probes + [k.value];
      }
    }
    assert probes == Searched(sh, f, maxProbes);
    var lk := LadderSize(sh);
    if lk.Some? && lk.value !in probes && AllRun(f, probes) {
      probes := probes + [lk.value];
    }
  }

  /** The report of one sweep. */
  method Summarise(sh: Shape, f: Oracle, probes: seq<nat>) returns (r: Report)
    ensures r.probes == probes && Honest(sh, f, r)
  {
    var best: Option<nat>, first: Option<nat>, ladder: Option<nat> := None, None, None;
    for i := 0 to |probes|
      invariant Largest(f, probes[..i], best) && Smallest(f, probes[..i], first)
              && SmallestWide(sh, probes[..i], ladder)
    {
      var k := probes[i];
      assert probes[..i + 1] == probes[..i] + [k];
      if f(k).Decided? && (best.None? || k > best.value) {
        best := Some(k);
      }
      if f(k).Undecided? && (first.None? || k < first.value) {
        first := Some(k);
      }
      if OverCeiling(sh, k) && (ladder.None? || k < ladder.value) {
        ladder := Some(k);
      }
    }
    assert probes[..|probes|] == probes;
    var flag := exists b, o :: b in probes && o in probes && b < o && f(b).Undecided? && f(o).Decided?;
    return Report(probes, best, first, flag, ladder);
  }

  /** What a sweep reports. */
  predicate Reports(sh: Shape, f: Oracle, maxProbes: nat, r: Report) {
    r.probes == Plan(sh, f, maxProbes) && Honest(sh, f, r)
  }

  method Sweep(sh: Shape, f: Oracle, maxProbes: nat) returns (r: Report)
    requires Increasing(sh.seeds)
    ensures Reports(sh, f, maxProbes, r)
  {
    var probes := Probe(sh, f, maxProbes);
    r := Summarise(sh, f, probes);
  }

  // ---- what a sweep probes --------------------------------------------------------------------------------------

  /** No size is probed twice. */
  lemma PlanDistinct(sh: Shape, f: Oracle, maxProbes: nat)
    requires Increasing(sh.seeds)
    ensures Distinct(Plan(sh, f, maxProbes))
  {
    hide Distinct, Searched, LadderK, AllRun;
    SearchedDistinct(sh, f, maxProbes);
    var before, k := Searched(sh, f, maxProbes), LadderK(sh, sh.seeds);
    OneSize(0);
    if k.Some? && k.value !in before {
      OneSize(k.value);
      DistinctJoin(before, [k.value]);
    }
  }

  lemma OneSize(k: nat)
    ensures Distinct([k])
  {
  }

  lemma SearchedDistinct(sh: Shape, f: Oracle, maxProbes: nat)
    requires Increasing(sh.seeds)
    ensures Distinct(Searched(sh, f, maxProbes))
  {
    hide Distinct, WalkProbes, BisectProbes, Increasing;
    var before, look := WalkProbes(f, sh.seeds) + BisectProbes(sh, f, maxProbes), Look(sh, f, maxProbes);
    WalkDistinct(sh, f, maxProbes);
    if look.Some? {
      FirstBeyondIs(sh.seeds, LastBad(sh, f, maxProbes).value, before);
      hide Look, LastBad;
      OneSize(look.value);
      DistinctJoin(before, [look.value]);
    } else {
      assert before + [] == before;
    }
  }

  lemma WalkDistinct(sh: Shape, f: Oracle, maxProbes: nat)
    requires Increasing(sh.seeds)
    ensures Distinct(WalkProbes(f, sh.seeds) + BisectProbes(sh, f, maxProbes))
  {
    var walk, mids, n := WalkProbes(f, sh.seeds), BisectProbes(sh, f, maxProbes), Walked(f, sh.seeds);
    if Bracketed(f, sh.seeds) {
      hide Mids, Distinct;
      assert sh.seeds[n - 1] < sh.seeds[n] by { SeedsAscend(sh.seeds, n); }
      MidsInside(f, sh.seeds[n - 1], sh.seeds[n], maxProbes);
      BracketDistinct(sh.seeds, n, walk, mids);
    } else {
      hide Mids, Walked;
      assert walk + [] == walk;
    }
  }

  lemma BracketDistinct(seeds: seq<nat>, n: nat, walk: seq<nat>, probed: seq<nat>)
    requires Increasing(seeds) && 0 < n < |seeds| && walk == seeds[..n + 1] && Distinct(probed)
    requires forall k :: k in probed ==> seeds[n - 1] < k < seeds[n]
    ensures Distinct(walk + probed)
  {
    forall k | k in walk ensures k !in probed {
      var i :| 0 <= i <= n && seeds[i] == k;
      assert i < n - 1 ==> seeds[i] < seeds[n - 1];
    }
    DistinctJoin(walk, probed);
  }

  /** Beyond the walked seeds a sweep spends at most its budget, and one probe more for the ladder. */
  lemma PlanSize(sh: Shape, f: Oracle, maxProbes: nat)
    requires Increasing(sh.seeds) && !sh.fixed
    ensures WalkProbes(f, sh.seeds) <= Plan(sh, f, maxProbes)
    ensures |Plan(sh, f, maxProbes)| <= |WalkProbes(f, sh.seeds)| + maxProbes + 1
  {
    if Bracketed(f, sh.seeds) {
      var n := Walked(f, sh.seeds);
      MidsInside(f, sh.seeds[n - 1], sh.seeds[n], maxProbes);
    }
    hide WalkProbes, Mids;
  }

  lemma {:induction false} FirstBeyondIs(seeds: seq<nat>, bad: nat, probes: seq<nat>)
    ensures var k := FirstBeyond(seeds, bad, probes);
            && (k.None? <==> forall i :: 0 <= i < |seeds| ==> !(seeds[i] > bad && seeds[i] !in probes))
            && (k.Some? ==> k.value in seeds && k.value > bad && k.value !in probes
                            && (Increasing(seeds) ==> forall s :: s in seeds && bad < s < k.value ==> s in probes))
  {
    if seeds != [] {
      FirstBeyondIs(seeds[1..], bad, probes);
      assert seeds == [seeds[0]] + seeds[1..];
    }
  }

  lemma {:induction false} LadderKIs(sh: Shape, seeds: seq<nat>)
    ensures var k := LadderK(sh, seeds);
            && (k.None? <==> forall s :: s in seeds ==> !OverCeiling(sh, s))
            && (k.Some? ==> k.value in seeds && OverCeiling(sh, k.value)
                            && (Increasing(seeds) ==> forall s :: s in seeds && OverCeiling(sh, s) ==> k.value <= s))
  {
    if seeds != [] {
      LadderKIs(sh, seeds[1..]);
      assert seeds == [seeds[0]] + seeds[1..];
    }
  }

  /** The look goes to the smallest seed past the non-decider that was not probed, exactly when there is one and a
      probe is left. */
  lemma LookIsNext(sh: Shape, f: Oracle, maxProbes: nat, bad: nat)
    requires Increasing(sh.seeds) && !sh.fixed && LastBad(sh, f, maxProbes) == Some(bad)
    requires |BisectProbes(sh, f, maxProbes)| < maxProbes
    ensures var before := WalkProbes(f, sh.seeds) + BisectProbes(sh, f, maxProbes);
            forall s :: s in sh.seeds && s > bad && s !in before ==>
                (forall t :: t in sh.seeds && bad < t < s ==> t in before) ==> s in Plan(sh, f, maxProbes)
  {
    FirstBeyondIs(sh.seeds, bad, WalkProbes(f, sh.seeds) + BisectProbes(sh, f, maxProbes));
    hide WalkProbes, BisectProbes;
  }

  /** When every probe could run, the smallest seed over the ceiling is probed, and the report has a ladder row that
      is no larger. */
  lemma LadderIsProbed(sh: Shape, f: Oracle, maxProbes: nat, r: Report, s: nat)
    requires Increasing(sh.seeds) && !sh.fixed && Reports(sh, f, maxProbes, r) && AllRun(f, r.probes)
    requires s in sh.seeds && OverCeiling(sh, s)
    ensures LadderK(sh, sh.seeds).Some? && LadderK(sh, sh.seeds).value in r.probes
    ensures r.ladder.Some? && r.ladder.value <= LadderK(sh, sh.seeds).value <= s
  {
    LadderKIs(sh, sh.seeds);
    hide Searched, Increasing;
    assert forall k :: k in Searched(sh, f, maxProbes) ==> k in Plan(sh, f, maxProbes);
  }

  // ---- the frontier ---------------------------------------------------------------------------------------------

  /** The walk brackets the frontier of a downward-closed engine, and the gap is within the budget. */
  ghost predicate Searchable(sh: Shape, f: Oracle, maxProbes: nat) {
    var n := Walked(f, sh.seeds);
    && Increasing(sh.seeds) && !sh.fixed && Bracketed(f, sh.seeds) && sh.seeds[n] - sh.seeds[n - 1] <= Pow2(maxProbes)
    && DownwardClosed(f)
  }

  /** The report names the largest deciding size and its successor. */
  ghost predicate IsFrontier(f: Oracle, r: Report) {
    && r.largest.Some? && r.first == Some(r.largest.value + 1) && !r.nonMonotone
    && forall k: nat :: f(k).Decided? <==> k <= r.largest.value
  }

  /** Wherever the frontier can be searched for, the report names the largest deciding size and raises no flag; and
      it names its successor as the first undecided size if and only if the successor can be run. */
  lemma FrontierExactly(sh: Shape, f: Oracle, maxProbes: nat, r: Report)
    requires Searchable(sh, f, maxProbes) && Reports(sh, f, maxProbes, r)
    ensures r.largest.Some? && !r.nonMonotone && forall k: nat :: f(k).Decided? <==> k <= r.largest.value
    ensures r.first == Some(r.largest.value + 1) <==> !f(r.largest.value + 1).Unrunnable?
    ensures IsFrontier(f, r) <==> !f(r.largest.value + 1).Unrunnable?
    ensures AllRun(f, r.probes) ==> IsFrontier(f, r)
  {
    hide Plan, Bisect, Mids, Pow2, Honest, DownwardClosed, Increasing;
    var n := Walked(f, sh.seeds);
    var lo, hi := sh.seeds[n - 1], sh.seeds[n];
    assert lo < hi by { SeedsAscend(sh.seeds, n); }
    BisectBrackets(f, lo, hi, maxProbes);
    BisectAdjacent(f, lo, hi, maxProbes);
    EndsProbed(sh, f, maxProbes);
    var t := Bisect(f, lo, hi, maxProbes).0;
    hide Walked, AllRun;
    AdjacentIsLargest(sh, f, r, t);
    ProbedRun(f, r.probes, t + 1);
  }

  lemma SeedsAscend(seeds: seq<nat>, n: nat)
    requires Increasing(seeds) && 0 < n < |seeds|
    ensures seeds[n - 1] < seeds[n]
  {
  }

  lemma ProbedRun(f: Oracle, probes: seq<nat>, k: nat)
    requires k in probes
    ensures AllRun(f, probes) ==> !f(k).Unrunnable?
  {
  }

  lemma EndsProbed(sh: Shape, f: Oracle, maxProbes: nat)
    requires Increasing(sh.seeds) && !sh.fixed && Bracketed(f, sh.seeds)
    ensures var n := Walked(f, sh.seeds);
            var (a, b) := Bisect(f, sh.seeds[n - 1], sh.seeds[n], maxProbes);
            a in Plan(sh, f, maxProbes) && b in Plan(sh, f, maxProbes)
  {
    hide Mids, Bisect, Increasing, AllRun, LadderK, Look;
    var n := Walked(f, sh.seeds);
    SeedsAscend(sh.seeds, n);
    MidsEnds(f, sh.seeds[n - 1], sh.seeds[n], maxProbes);
    var walk, mids := WalkProbes(f, sh.seeds), BisectProbes(sh, f, maxProbes);
    assert walk[n - 1] == sh.seeds[n - 1] && walk[n] == sh.seeds[n]
        && mids == Mids(f, sh.seeds[n - 1], sh.seeds[n], maxProbes);
    hide Walked, WalkProbes, BisectProbes;
    forall k | k in walk || k in mids ensures k in Plan(sh, f, maxProbes) {
      EarlyProbed(sh, f, maxProbes, k);
    }
    hide Plan;
  }

  lemma EarlyProbed(sh: Shape, f: Oracle, maxProbes: nat, k: nat)
    requires !sh.fixed && (k in WalkProbes(f, sh.seeds) || k in BisectProbes(sh, f, maxProbes))
    ensures k in Plan(sh, f, maxProbes)
  {
    hide WalkProbes, BisectProbes, LadderK, Look, AllRun;
    assert k in Searched(sh, f, maxProbes);
  }

  lemma AdjacentIsLargest(sh: Shape, f: Oracle, r: Report, t: nat)
    requires Honest(sh, f, r) && DownwardClosed(f)
    requires t in r.probes && t + 1 in r.probes && f(t).Decided? && !f(t + 1).Decided?
    ensures r.largest == Some(t) && !r.nonMonotone && (forall k: nat :: f(k).Decided? <==> k <= t)
    ensures r.first == Some(t + 1) <==> !f(t + 1).Unrunnable?
  {
  }

  /** Decides exactly the sizes up to `t`, and cannot run `t + 1`. */
  function Gapped(t: nat): Oracle {
    (k: nat) => if k <= t then Decided else if k == t + 1 then Unrunnable else Undecided
  }

  /** A size that cannot run counts as not deciding in the bisection, and the report leaves it out: for every `t`, a
      sweep over the seeds `t` and `t + 2` whose middle cannot run names `t` and `t + 2`. */
  lemma UnrunnableLeavesAGap(t: nat, sh: Shape, maxProbes: nat, r: Report)
    requires maxProbes >= 1 && sh.seeds == [t, t + 2] && !sh.fixed && Reports(sh, Gapped(t), maxProbes, r)
    ensures r.largest == Some(t) && r.first == Some(t + 2) && !r.nonMonotone
  {
    hide Plan, Bisect, Mids, Pow2;
    var f := Gapped(t);
    WalkedIs(f, sh.seeds, 1);
    assert 2 <= Pow2(maxProbes) by { TwoFits(maxProbes); }
    PlanSize(sh, f, maxProbes);
    assert WalkProbes(f, sh.seeds)[1] == t + 2;
    assert t + 2 in r.probes && f(t).Decided? && !f(t + 1).Decided? && f(t + 2).Undecided?;
    hide Walked, WalkProbes;
    FrontierExactly(sh, f, maxProbes, r);
  }

  lemma TwoFits(m: nat)
    requires m >= 1
    ensures 2 <= Pow2(m)
  {
    Pow2Monotone(1, m);
    assert Pow2(1) == 2;
  }
}
