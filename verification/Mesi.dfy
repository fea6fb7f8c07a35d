/**
 The generator of `examples/verify/v4_mesi_parametric/generate.py`: N caches over one tracked line and a shared
 memory, composed by rendezvous on the bus labels. The emitted transition lists and formula are read back as a
 joint step, and what the project file asks of the system is proved for every N and every run.
 */
module Mesi {

  import opened Basics

  datatype Status = I | S | E | M

  datatype Bus = Read(core: nat) | Write(core: nat)

  datatype Arc<T> = Arc(from: T, to: T, on: Bus)

  datatype Memory = Initial | Written

  // ---- the emitted lists -----------------------------------------------------------------------------------------

  /** Where cache `k` goes from `s` on a bus label. */
  function CacheStep(k: nat, s: Status, b: Bus): Status {
    match b
    case Read(j) => if j == k then (if s == I then E else s) else (if s == E || s == M then S else s)
    case Write(j) => if j == k then M else I
  }

  function MemoryStep(m: Memory, b: Bus): Memory { if b.Write? then Written else m }

  function LocalArcs(k: nat): seq<Arc<Status>> {
    [Arc(I, E, Read(k)), Arc(S, S, Read(k)), Arc(E, E, Read(k)), Arc(M, M, Read(k)),
     Arc(I, M, Write(k)), Arc(S, M, Write(k)), Arc(E, M, Write(k)), Arc(M, M, Write(k))]
  }

  function SnoopArcs(j: nat): seq<Arc<Status>> {
    [Arc(I, I, Write(j)), Arc(S, I, Write(j)), Arc(E, I, Write(j)), Arc(M, I, Write(j)),
     Arc(I, I, Read(j)), Arc(S, S, Read(j)), Arc(E, S, Read(j)), Arc(M, S, Read(j))]
  }

  /** The transitions of cache `k` of `n`: exactly one from each state on each bus label. */
  method CacheArcs(k: nat, n: nat) returns (arcs: seq<Arc<Status>>)
    requires k < n
    ensures Distinct(arcs)
    ensures forall a :: a in arcs <==> a.on.core < n && a.to == CacheStep(k, a.from, a.on)
  {
    hide CacheStep, Distinct, SnoopArcs, LocalArcs;
    arcs := Locals(k);
    LocalMembers(k);
    for j := 0 to n
      invariant Distinct(arcs)
      invariant forall a :: a in arcs <==> (a.on.core < j || a.on.core == k) && a.to == CacheStep(k, a.from, a.on)
    {
      if j != k {
        var more := Snoops(j);
        SnoopMembers(k, j);
        DistinctJoin(arcs, more);
        arcs := arcs + more;
      }
    }
  }

  method Locals(k: nat) returns (arcs: seq<Arc<Status>>)
    ensures arcs == LocalArcs(k)
  {
    arcs := [Arc(I, E, Read(k)), Arc(S, S, Read(k)), Arc(E, E, Read(k)), Arc(M, M, Read(k))];
    var all := [I, S, E, M];
    for i := 0 to 4
      invariant arcs == LocalArcs(k)[..4 + i]
    {
      arcs := arcs + [Arc(all[i], M, Write(k))];
    }
  }

  method Snoops(j: nat) returns (arcs: seq<Arc<Status>>)
    ensures arcs == SnoopArcs(j)
  {
    arcs := [];
    var all := [I, S, E, M];
    for i := 0 to 4
      invariant arcs == SnoopArcs(j)[..i]
    {
      arcs := arcs + [Arc(all[i], I, Write(j))];
    }
    arcs := arcs + [Arc(I, I, Read(j)), Arc(S, S, Read(j)), Arc(E, S, Read(j)), Arc(M, S, Read(j))];
  }

  lemma LocalMembers(k: nat)
    ensures Distinct(LocalArcs(k))
    ensures forall a :: a in LocalArcs(k) <==> a.on.core == k && a.to == CacheStep(k, a.from, a.on)
  {
    LocalDistinct(k);
    hide Distinct;
    forall a: Arc<Status> | a.on.core == k && a.to == CacheStep(k, a.from, a.on) ensures a in LocalArcs(k) {
      var at := (if a.on.Read? then 0 else 4) + Rank(a.from);
      assert LocalArcs(k)[at] == a;
    }
  }

  lemma LocalDistinct(k: nat)
    ensures Distinct(LocalArcs(k))
  {
  }

  lemma SnoopMembers(k: nat, j: nat)
    requires j != k
    ensures Distinct(SnoopArcs(j))
    ensures forall a :: a in SnoopArcs(j) <==> a.on.core == j && a.to == CacheStep(k, a.from, a.on)
  {
    SnoopDistinct(j);
    hide Distinct;
    forall a: Arc<Status> | a.on.core == j && a.to == CacheStep(k, a.from, a.on) ensures a in SnoopArcs(j) {
      var at := (if a.on.Write? then 0 else 4) + Rank(a.from);
      assert SnoopArcs(j)[at] == a;
    }
  }

  lemma SnoopDistinct(j: nat)
    ensures Distinct(SnoopArcs(j))
  {
  }

  function Rank(s: Status): nat { match s case I => 0 case S => 1 case E => 2 case M => 3 }

  method MemoryArcs(n: nat) returns (arcs: seq<Arc<Memory>>)
    ensures Distinct(arcs)
    ensures forall a :: a in arcs <==> a.on.core < n && a.to == MemoryStep(a.from, a.on)
  {
    arcs := [];
    for k := 0 to n
      invariant Distinct(arcs)
      invariant forall a :: a in arcs <==> a.on.core < k && a.to == MemoryStep(a.from, a.on)
    {
      var more := [Arc(Initial, Written, Write(k)), Arc(Written, Written, Write(k)),
                   Arc(Initial, Initial, Read(k)), Arc(Written, Written, Read(k))];
      assert forall a :: a in more <==> a.on.core == k && a.to == MemoryStep(a.from, a.on) by { MemoryMembers(k); }
      DistinctJoin(arcs, more);
      arcs := arcs + more;
    }
  }

  lemma MemoryMembers(k: nat)
    ensures var more := [Arc(Initial, Written, Write(k)), Arc(Written, Written, Write(k)),
                         Arc(Initial, Initial, Read(k)), Arc(Written, Written, Read(k))];
            forall a :: a in more <==> a.on.core == k && a.to == MemoryStep(a.from, a.on)
  {
    var more := [Arc(Initial, Written, Write(k)), Arc(Written, Written, Write(k)),
                 Arc(Initial, Initial, Read(k)), Arc(Written, Written, Read(k))];
    forall a: Arc<Memory> | a.on.core == k && a.to == MemoryStep(a.from, a.on) ensures a in more {
      var at := (if a.on.Write? then 0 else 2) + (if a.from == Initial then 0 else 1);
      assert more[at] == a;
    }
  }

  // ---- the composed system ---------------------------------------------------------------------------------------

  datatype System = System(caches: seq<Status>, memory: Memory)

  function Step(s: System, b: Bus): System {
    System(seq(|s.caches|, k requires 0 <= k < |s.caches| => CacheStep(k, s.caches[k], b)), MemoryStep(s.memory, b))
  }

  function Start(n: nat): System { System(seq(n, _ => I), Initial) }

  /** Rendezvous: every component takes one of its own transitions on the label. */
  predicate Joint(n: nat, caches: seq<seq<Arc<Status>>>, memory: seq<Arc<Memory>>, s: System, b: Bus, t: System)
    requires |caches| == n && |s.caches| == n
  {
    && |t.caches| == n
    && (forall k :: 0 <= k < n ==> Arc(s.caches[k], t.caches[k], b) in caches[k])
    && Arc(s.memory, t.memory, b) in memory
  }

  /** Composing the emitted automata gives exactly `Step` on the bus labels of the N cores: the system is
      deterministic, and every label is enabled in every state. */
  lemma JointIsStep(n: nat, caches: seq<seq<Arc<Status>>>, memory: seq<Arc<Memory>>, s: System, b: Bus, t: System)
    requires |caches| == n && |s.caches| == n
    requires forall k, a :: 0 <= k < n ==> (a in caches[k] <==> a.on.core < n && a.to == CacheStep(k, a.from, a.on))
    requires forall a :: a in memory <==> a.on.core < n && a.to == MemoryStep(a.from, a.on)
    ensures Joint(n, caches, memory, s, b, t) <==> b.core < n && t == Step(s, b)
  {
    if Joint(n, caches, memory, s, b, t) {
      assert t.caches == Step(s, b).caches;
    }
  }

  predicate OnBus(n: nat, run: seq<Bus>) {
    forall i :: 0 <= i < |run| ==> run[i].core < n
  }

  function After(n: nat, run: seq<Bus>): System {
    if run == [] then Start(n) else Step(After(n, run[..|run| - 1]), run[|run| - 1])
  }

  // ---- the pairwise formula ---------------------------------------------------------------------------------------

  /** The pairs of the first `i` rows of the triangle: row `a` has one for each `b` between `a` and `n`. */
  function Rows(n: nat, i: nat): nat
    requires i <= n
  {
    if i == 0 then 0 else Rows(n, i - 1) + (n - i)
  }

  lemma {:induction false} RowsSum(n: nat, i: nat)
    requires i <= n
    ensures 2 * Rows(n, i) == i * (2 * n - i - 1)
  {
    if i > 0 {
      RowsSum(n, i - 1);
      assert (i - 1) * (2 * n - i) + 2 * (n - i) == i * (2 * n - i - 1) by {
        assert i * (2 * n - i - 1) == (i - 1) * (2 * n - i - 1) + (2 * n - i - 1);
        assert (i - 1) * (2 * n - i) == (i - 1) * (2 * n - i - 1) + (i - 1);
      }
    }
  }

  /** The index pairs of the generated safety formula: every two of the caches, once, n(n-1)/2 pairs. */
  method Pairs(n: nat) returns (pairs: seq<(nat, nat)>)
    ensures forall p :: p in pairs <==> p.0 < p.1 < n
    ensures Distinct(pairs) && 2 * |pairs| == n * (n - 1)
  {
    pairs := [];
    for i := 0 to n
      invariant forall p :: p in pairs <==> p.0 < i && p.0 < p.1 < n
      invariant Distinct(pairs) && |pairs| == Rows(n, i)
    {
      for j := i + 1 to n
        invariant forall p :: p in pairs <==> (p.0 < i && p.0 < p.1 < n) || (p.0 == i && i < p.1 < j)
        invariant Distinct(pairs) && |pairs| == Rows(n, i) + (j - i - 1)
      {
        pairs := pairs + [(i, j)];
      }
    }
    RowsSum(n, n);
  }

  predicate PairwiseFormula(pairs: seq<(nat, nat)>, caches: seq<Status>)
    requires forall p :: p in pairs ==> p.0 < |caches| && p.1 < |caches|
  {
    forall p :: p in pairs ==> !(caches[p.0] == M && caches[p.1] == M)
  }

  function Count(caches: seq<Status>, x: Status): nat {
    |set k | 0 <= k < |caches| && caches[k] == x|
  }

  lemma {:induction false} CountAtMostOne(caches: seq<Status>, x: Status)
    ensures Count(caches, x) <= 1 <==> forall i, j :: 0 <= i < j < |caches| ==> !(caches[i] == x && caches[j] == x)
  {
    var s := set k | 0 <= k < |caches| && caches[k] == x;
    if i, j :| 0 <= i < j < |caches| && caches[i] == x && caches[j] == x {
      assert {i, j} <= s;
      SubsetSize({i, j}, s);
      assert |{i, j}| == 2;
    } else if s != {} {
      var i :| i in s;
      assert s == {i};
    }
  }

  /** The generated formula says exactly that at most one cache is Modified. */
  lemma PairwiseIsAtMostOne(pairs: seq<(nat, nat)>, caches: seq<Status>)
    requires forall p :: p in pairs <==> p.0 < p.1 < |caches|
    ensures PairwiseFormula(pairs, caches) <==> Count(caches, M) <= 1
  {
    CountAtMostOne(caches, M);
    if PairwiseFormula(pairs, caches) {
      forall i, j | 0 <= i < j < |caches| ensures !(caches[i] == M && caches[j] == M) {
        assert (i, j) in pairs;
      }
    }
  }

  // ---- the reachable states ---------------------------------------------------------------------------------------

  predicate AllInvalid(c: seq<Status>) { forall k :: 0 <= k < |c| ==> c[k] == I }

  predicate OneModified(c: seq<Status>) {
    exists m :: 0 <= m < |c| && c[m] == M && forall k :: 0 <= k < |c| && k != m ==> c[k] == I
  }

  predicate OnlyExclusive(c: seq<Status>, e: nat) {
    e < |c| && c[e] == E && forall k :: 0 <= k < |c| && k != e ==> c[k] == I || c[k] == S
  }

  predicate SharedOnly(c: seq<Status>) {
    && (forall k :: 0 <= k < |c| ==> c[k] == I || c[k] == S)
    && exists i, j :: 0 <= i < j < |c| && c[i] == S && c[j] == S
  }

  /** All invalid and nothing written; one Modified, everything else invalid; one Exclusive beside Shared and
      invalid ones, a written line being shared by somebody; or Shared and invalid ones with at least two Shared. */
  predicate Possible(s: System) {
    var c := s.caches;
    || (AllInvalid(c) && s.memory == Initial)
    || (OneModified(c) && s.memory == Written)
    || (exists e :: 0 <= e < |c| && OnlyExclusive(c, e) && (s.memory == Written ==> S in c))
    || SharedOnly(c)
  }

  lemma PossibleKept(s: System, b: Bus)
    requires Possible(s) && b.core < |s.caches|
    ensures Possible(Step(s, b))
  {
    var c, d, k := s.caches, Step(s, b).caches, b.core;
    if b.Write? {
      assert d[k] == M;
      assert OneModified(d);
    } else if c[k] == I {
      assert forall i :: 0 <= i < |c| && i != k ==> d[i] == I || d[i] == S;
      assert OnlyExclusive(d, k);
      if s.memory == Written {
        SomebodyElse(s);
        var i :| 0 <= i < |c| && c[i] != I;
        assert d[i] == S;
      }
    } else if c[k] == S {
      if SharedOnly(c) {
        assert d == c;
      } else {
        var e: nat :| 0 <= e < |c| && OnlyExclusive(c, e);
        DowngradeKept(c, d, k, e);
      }
    } else {
      assert d == c;
    }
  }

  lemma DowngradeKept(c: seq<Status>, d: seq<Status>, k: nat, e: nat)
    requires OnlyExclusive(c, e) && k < |c| == |d| && c[k] == S
    requires forall i :: 0 <= i < |d| ==> d[i] == CacheStep(i, c[i], Read(k))
    ensures SharedOnly(d)
  {
    assert d[e] == S && d[k] == S;
    assert if e < k then d[e] == S && d[k] == S else d[k] == S && d[e] == S;
  }

  lemma SomebodyElse(s: System)
    requires Possible(s) && s.memory == Written
    ensures exists i :: 0 <= i < |s.caches| && s.caches[i] != I
  {
  }

  lemma {:induction false} RunsArePossible(n: nat, run: seq<Bus>)
    requires OnBus(n, run)
    ensures |After(n, run).caches| == n && Possible(After(n, run))
  {
    if run != [] {
      RunsArePossible(n, run[..|run| - 1]);
      PossibleKept(After(n, run[..|run| - 1]), run[|run| - 1]);
    }
  }

  lemma RunOn(n: nat, run: seq<Bus>, b: Bus) returns (more: seq<Bus>)
    requires OnBus(n, run) && b.core < n
    ensures OnBus(n, more) && After(n, more) == Step(After(n, run), b)
  {
    more := run + [b];
    assert more[..|more| - 1] == run;
  }

  /** A run into every state with one Exclusive cache, by induction on the number of Shared ones. */
  lemma {:induction false} RunToExclusive(n: nat, s: System, e: nat) returns (run: seq<Bus>)
    requires |s.caches| == n && OnlyExclusive(s.caches, e) && (s.memory == Written ==> S in s.caches)
    ensures OnBus(n, run) && After(n, run) == s
    decreases Count(s.caches, S)
  {
    var c := s.caches;
    if S !in c {
      run := RunOn(n, [], Read(e));
      assert Step(Start(n), Read(e)).caches == c;
    } else {
      var t :| 0 <= t < n && c[t] == S;
      hide Count, After;
      var before := c[e := I][t := E];
      FewerShared(c, before, t);
      if s.memory == Initial || S in before {
        run := RunToExclusive(n, System(before, s.memory), t);
        run := RunOn(n, run, Read(e));
        assert Step(System(before, s.memory), Read(e)).caches == c;
      } else {
        assert forall k :: 0 <= k < n && k != e && k != t ==> before[k] == I;
        run := RunWriteRead(n, s, t, e);
      }
    }
  }

  lemma RunWriteRead(n: nat, s: System, t: nat, e: nat) returns (run: seq<Bus>)
    requires s.memory == Written && |s.caches| == n && t < n && e < n && t != e && s.caches[t] == S && s.caches[e] == E
    requires forall k :: 0 <= k < n && k != e && k != t ==> s.caches[k] == I
    ensures OnBus(n, run) && After(n, run) == s
  {
    run := RunOn(n, [], Write(t));
    var mid := System(Start(n).caches[t := M], Written);
    assert Step(Start(n), Write(t)).caches == mid.caches;
    run := RunOn(n, run, Read(e));
    assert Step(mid, Read(e)).caches == s.caches;
  }

  lemma FewerShared(c: seq<Status>, d: seq<Status>, t: nat)
    requires t < |c| == |d| && c[t] == S && d[t] != S
    requires forall k :: 0 <= k < |c| ==> d[k] == S ==> c[k] == S
    ensures Count(d, S) < Count(c, S)
  {
    var a, b := set k | 0 <= k < |d| && d[k] == S, set k | 0 <= k < |c| && c[k] == S;
    assert a <= b - {t};
    SubsetSize(a, b - {t});
  }

  lemma RunToPossible(n: nat, s: System) returns (run: seq<Bus>)
    requires |s.caches| == n && Possible(s)
    ensures OnBus(n, run) && After(n, run) == s
  {
    var c := s.caches;
    if AllInvalid(c) && s.memory == Initial {
      run := [];
      assert c == Start(n).caches;
    } else if OneModified(c) && s.memory == Written {
      var m :| 0 <= m < |c| && c[m] == M && forall k :: 0 <= k < |c| && k != m ==> c[k] == I;
      run := RunOn(n, [], Write(m));
      assert Step(Start(n), Write(m)).caches == c;
    } else if SharedOnly(c) {
      var i, j :| 0 <= i < j < |c| && c[i] == S && c[j] == S;
      var before := System(c[i := E], s.memory);
      assert before.caches[j] == S;
      run := RunToExclusive(n, before, i);
      run := RunOn(n, run, Read(j));
      assert Step(before, Read(j)).caches == c;
    } else {
      var e :| OnlyExclusive(c, e) && (s.memory == Written ==> S in c);
      run := RunToExclusive(n, s, e);
    }
  }

  /** For every N, the states that runs reach are exactly the possible ones. */
  lemma ReachableExactly(n: nat, s: System)
    requires |s.caches| == n
    ensures (exists run :: OnBus(n, run) && After(n, run) == s) <==> Possible(s)
  {
    if run :| OnBus(n, run) && After(n, run) == s {
      RunsArePossible(n, run);
    }
    if Possible(s) {
      var run := RunToPossible(n, s);
    }
  }

  // ---- the properties of the project file -----------------------------------------------------------------------

  /** Coherence on every run: at most one cache is Exclusive or Modified, and beside a Modified one every other is
      invalid; so the generated formula holds. */
  lemma {:induction false} Coherence(n: nat, run: seq<Bus>, pairs: seq<(nat, nat)>)
    requires OnBus(n, run) && forall p :: p in pairs <==> p.0 < p.1 < n
    ensures var c := After(n, run).caches;
            && |c| == n
            && (forall i, j :: 0 <= i < n && 0 <= j < n && i != j && c[i] in {E, M} ==> c[j] !in {E, M})
            && (forall i, j :: 0 <= i < n && 0 <= j < n && i != j && c[i] == M ==> c[j] == I)
            && PairwiseFormula(pairs, c)
  {
    RunsArePossible(n, run);
    var c := After(n, run).caches;
    if exists e :: OnlyExclusive(c, e) {
      var e :| OnlyExclusive(c, e);
      assert forall i :: 0 <= i < n && i != e ==> c[i] == I || c[i] == S;
    }
  }

  /** Memory is Written exactly when the run has a write. */
  lemma {:induction false} WrittenExactly(n: nat, run: seq<Bus>)
    ensures After(n, run).memory == Written <==> exists i :: 0 <= i < |run| && run[i].Write?
  {
    if run != [] {
      var init := run[..|run| - 1];
      WrittenExactly(n, init);
      if i :| 0 <= i < |init| && init[i].Write? {
        assert run[i].Write?;
      }
    }
  }

  /** Exclusive and Shared copies coexist on some run if and only if there are two caches. */
  lemma ExclusiveBesideSharedExactly(n: nat)
    ensures (exists run :: OnBus(n, run) && E in After(n, run).caches && S in After(n, run).caches) <==> n >= 2
  {
    if n >= 2 {
      var s := System(seq(n, k => if k == 0 then E else if k == 1 then S else I), Initial);
      assert s.caches[0] == E && s.caches[1] == S;
      assert OnlyExclusive(s.caches, 0);
      var run := RunToPossible(n, s);
      assert E in After(n, run).caches && S in After(n, run).caches;
    }
    if run :| OnBus(n, run) && E in After(n, run).caches && S in After(n, run).caches {
      RunsArePossible(n, run);
      var c := After(n, run).caches;
      var i :| 0 <= i < |c| && c[i] == E;
      var j :| 0 <= j < |c| && c[j] == S;
      assert i != j;
    }
  }

  /** From every reachable state one bus write makes memory Written; without cores there is no move at all. */
  lemma WriteVisible(n: nat, run: seq<Bus>)
    requires OnBus(n, run)
    ensures n >= 1 <==> exists b: Bus :: b.core < n && OnBus(n, run + [b]) && After(n, run + [b]).memory == Written
  {
    if n >= 1 {
      var more := run + [Write(0)];
      assert more[..|run|] == run && more[|run|] == Write(0);
      WrittenExactly(n, more);
      assert Write(0).core < n && OnBus(n, run + [Write(0)]);
    }
  }
}
