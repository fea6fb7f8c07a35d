/**
 The emitted automaton of the memory-fabric study and the relation it comes from: names of states are bisimilar, so
 the outcomes, and whether completion can be lost, are the same of both.
 */
module FabricAutomaton {
  import opened Basics
  import opened Fabric
  import opened FabricVerdicts
  import opened FabricExplore

  // ---- the quotient ------------------------------------------------------------------------------------------

  /** Equal names are bisimilar: every edge of one state is matched by an edge of the other with the same
      labels, into a state of the same name. */
  lemma NamesBisimulate(n: nat, v: Variant, backfill: bool, s: State, t: State, e: Edge)
    requires NameOf(n, s) == NameOf(n, t) && e in Succ(n, v, backfill, s)
    ensures exists e' ::
              e' in Succ(n, v, backfill, t) && e'.labels == e.labels && NameOf(n, e'.next) == NameOf(n, e.next)
  {
    if NameOf(n, s) in OUTCOMES {
      OutcomeLoops(n, v, backfill, s);
      OutcomeLoops(n, v, backfill, t);
      assert Edge([Sink], t) in Succ(n, v, backfill, t);
    } else {
      KnownFaults(s);
      KnownFaults(t);
      assert s == t;
    }
  }

  function NameAt(initial: Name, path: seq<Arrow>, k: nat): Name
    requires k <= |path|
  {
    if k == 0 then initial else path[k - 1].to
  }

  ghost predicate IsPath(edges: seq<Arrow>, initial: Name, path: seq<Arrow>) {
    forall k :: 0 <= k < |path| ==> path[k] in edges && path[k].from == NameAt(initial, path, k)
  }

  predicate SameLabels(run: seq<Edge>, path: seq<Arrow>) {
    |run| == |path| && forall k :: 0 <= k < |run| ==> run[k].labels == path[k].labels
  }

  lemma EdgeHasArrow(n: nat, v: Variant, backfill: bool, names: seq<Name>, edges: seq<Arrow>, s: State, e: Edge)
    requires Emitted(n, v, backfill, names, edges) && Reachable(n, v, backfill, s) && e in Succ(n, v, backfill, s)
    ensures ArrowOf(n, s, e) in edges
  {
    assert IsArrow(n, v, backfill, ArrowOf(n, s, e));
  }

  /** Every run on from a reachable state has its image from that state's name. */
  lemma {:induction false} RunHasPath(n: nat, v: Variant, backfill: bool, names: seq<Name>, edges: seq<Arrow>, s: State,
                                        run: seq<Edge>) returns (path: seq<Arrow>)
    requires Emitted(n, v, backfill, names, edges) && Reachable(n, v, backfill, s) && IsRun(n, v, backfill, s, run)
    ensures IsPath(edges, NameOf(n, s), path) && NameAt(NameOf(n, s), path, |path|) == NameOf(n, End(s, run))
    ensures SameLabels(run, path)
    ensures Reachable(n, v, backfill, End(s, run))
  {
    hide Emitted, Succ, NameOf, Reachable;
    if run == [] {
      path := [];
    } else {
      var k := |run| - 1;
      RunPrefix(n, v, backfill, s, run, k);
      var last := run[k];
      assert last in Succ(n, v, backfill, At(s, run, k));
      hide IsPath, IsRun;
      var before := RunHasPath(n, v, backfill, names, edges, s, run[..k]);
      var t := End(s, run[..k]);
      ReachableStep(n, v, backfill, t, last);
      EdgeHasArrow(n, v, backfill, names, edges, t, last);
      PathAppend(edges, NameOf(n, s), before, ArrowOf(n, t, last));
      path := before + [ArrowOf(n, t, last)];
    }
  }

  lemma PathAppend(edges: seq<Arrow>, initial: Name, path: seq<Arrow>, a: Arrow)
    requires IsPath(edges, initial, path) && a in edges && a.from == NameAt(initial, path, |path|)
    ensures IsPath(edges, initial, path + [a])
  {
    forall k | 0 <= k < |path| + 1
      ensures (path + [a])[k] in edges && (path + [a])[k].from == NameAt(initial, path + [a], k)
    {
      if k < |path| {
        assert path[k] in edges && path[k].from == NameAt(initial, path, k);
      }
    }
  }

  lemma PathPrefix(edges: seq<Arrow>, initial: Name, path: seq<Arrow>, k: nat)
    requires IsPath(edges, initial, path) && k < |path|
    ensures IsPath(edges, initial, path[..k]) && NameAt(initial, path[..k], k) == path[k].from && path[k] in edges
  {
    forall i | 0 <= i < k ensures path[..k][i] in edges && path[..k][i].from == NameAt(initial, path[..k], i) {
      assert path[i] in edges && path[i].from == NameAt(initial, path, i);
    }
  }

  /** Every path on from a state's name is the image of a run on from that very state. */
  lemma {:induction false} PathHasRun(n: nat, v: Variant, backfill: bool, names: seq<Name>, edges: seq<Arrow>, s: State,
                                        path: seq<Arrow>) returns (run: seq<Edge>)
    requires Emitted(n, v, backfill, names, edges) && IsPath(edges, NameOf(n, s), path)
    ensures IsRun(n, v, backfill, s, run) && SameLabels(run, path)
            && NameOf(n, End(s, run)) == NameAt(NameOf(n, s), path, |path|)
  {
    hide Emitted, Succ, NameOf, IsPath;
    if path == [] {
      run := [];
    } else {
      var k := |path| - 1;
      PathPrefix(edges, NameOf(n, s), path, k);
      var before := PathHasRun(n, v, backfill, names, edges, s, path[..k]);
      var t := End(s, before);
      var e := ArrowHasEdge(n, v, backfill, names, edges, t, path[k]);
      assert IsRun(n, v, backfill, t, [e]);
      RunAppend(n, v, backfill, s, before, [e]);
      run := before + [e];
    }
  }

  lemma ArrowHasEdge(n: nat, v: Variant, backfill: bool, names: seq<Name>, edges: seq<Arrow>, s: State, a: Arrow)
    returns (e: Edge)
    requires Emitted(n, v, backfill, names, edges) && a in edges && a.from == NameOf(n, s)
    ensures e in Succ(n, v, backfill, s) && e.labels == a.labels && NameOf(n, e.next) == a.to
  {
    hide Reachable;
    assert IsArrow(n, v, backfill, a);
    if s', e' :| Reachable(n, v, backfill, s') && e' in Succ(n, v, backfill, s') && a == ArrowOf(n, s', e') {
      hide Succ;
      NamesBisimulate(n, v, backfill, s', s, e');
      e :| e in Succ(n, v, backfill, s) && e.labels == e'.labels && NameOf(n, e.next) == NameOf(n, e'.next);
    } else {
      OutcomeLoops(n, v, backfill, s);
      e := Edge([Sink], s);
    }
  }

  /** AG EF DONE of the automaton: from where any path ends, some path leads on to DONE. */
  ghost predicate AutomatonNeverWedged(n: nat, edges: seq<Arrow>) {
    forall path :: IsPath(edges, NameOf(n, INIT), path) ==> CanFinish(edges, NameAt(NameOf(n, INIT), path, |path|))
  }

  ghost predicate CanFinish(edges: seq<Arrow>, x: Name) {
    exists more :: IsPath(edges, x, more) && NameAt(x, more, |more|) == Done
  }

  lemma DoneIsDone(n: nat, s: State)
    ensures NameOf(n, s) == Done <==> IsDone(n, s)
  {
    KnownFaults(s);
  }

  /** From a reachable state's name the automaton can finish exactly when the state can complete. */
  lemma FinishExactly(n: nat, v: Variant, backfill: bool, names: seq<Name>, edges: seq<Arrow>, s: State)
    requires Emitted(n, v, backfill, names, edges) && Reachable(n, v, backfill, s)
    ensures CanFinish(edges, NameOf(n, s)) <==> CanComplete(n, v, backfill, s)
  {
    hide Emitted, Reachable, NameOf, IsPath, IsRun;
    if CanFinish(edges, NameOf(n, s)) {
      var more :| IsPath(edges, NameOf(n, s), more) && NameAt(NameOf(n, s), more, |more|) == Done;
      var run := PathHasRun(n, v, backfill, names, edges, s, more);
      DoneIsDone(n, End(s, run));
    }
    if CanComplete(n, v, backfill, s) {
      var run :| IsRun(n, v, backfill, s, run) && IsDone(n, End(s, run));
      var path := RunHasPath(n, v, backfill, names, edges, s, run);
      DoneIsDone(n, End(s, run));
    }
  }

  /** The study's fourth property on the emitted automaton: completion can never be lost exactly when it cannot under
      the relation, so exactly in v1, v4 and the v2 cases that cannot duplicate. */
  lemma EmittedNeverWedged(n: nat, v: Variant, backfill: bool, names: seq<Name>, edges: seq<Arrow>)
    requires Emitted(n, v, backfill, names, edges)
    ensures AutomatonNeverWedged(n, edges) <==> NeverWedged(n, v, backfill)
    ensures AutomatonNeverWedged(n, edges) <==> v in {V1, V4} || (v == V2 && (!backfill || n == 0))
  {
    hide Emitted, NameOf, IsPath, IsRun, End, CanFinish, CanComplete;
    Verdicts(n, v, backfill);
    if NeverWedged(n, v, backfill) {
      forall path | IsPath(edges, NameOf(n, INIT), path)
        ensures CanFinish(edges, NameAt(NameOf(n, INIT), path, |path|)) {
        var run := PathHasRun(n, v, backfill, names, edges, INIT, path);
        FinishExactly(n, v, backfill, names, edges, End(INIT, run));
      }
    }
    if AutomatonNeverWedged(n, edges) {
      forall run | IsRun(n, v, backfill, INIT, run) ensures CanComplete(n, v, backfill, End(INIT, run)) {
        StartReachable(n, v, backfill);
        var path := RunHasPath(n, v, backfill, names, edges, INIT, run);
        assert |path| == |run|;
        FinishExactly(n, v, backfill, names, edges, End(INIT, run));
      }
    }
  }

  /** The emitted automaton reaches the DUP, SKIP and DONE states exactly as the issue path does, so the
      study's verdicts are those of the automaton it ships. */
  lemma EmittedVerdicts(n: nat, v: Variant, backfill: bool, names: seq<Name>, edges: seq<Arrow>)
    requires Emitted(n, v, backfill, names, edges)
    ensures AutomatonReaches(n, edges, Duplicate) <==> v == V2 && backfill && n >= 1
    ensures AutomatonReaches(n, edges, Skipped) <==> v == V3
    ensures AutomatonReaches(n, edges, Done)
  {
    hide Succ, Emitted, IsRun, End, IsPath;
    FaultVerdicts(n, v, backfill);
    CompletionExactly(n, v, backfill, INIT);
    forall x: Name
      ensures AutomatonReaches(n, edges, x) <==>
              exists run :: IsRun(n, v, backfill, INIT, run) && NameOf(n, End(INIT, run)) == x
    {
      ReachesExactly(n, v, backfill, names, edges, x);
    }
  }

  ghost predicate AutomatonReaches(n: nat, edges: seq<Arrow>, x: Name) {
    exists path :: IsPath(edges, NameOf(n, INIT), path) && NameAt(NameOf(n, INIT), path, |path|) == x
  }

  lemma ReachesExactly(n: nat, v: Variant, backfill: bool, names: seq<Name>, edges: seq<Arrow>, x: Name)
    requires Emitted(n, v, backfill, names, edges)
    ensures AutomatonReaches(n, edges, x) <==>
            exists run :: IsRun(n, v, backfill, INIT, run) && NameOf(n, End(INIT, run)) == x
  {
    hide Succ, Emitted, IsRun, End, NameOf, IsPath;
    if path :| IsPath(edges, NameOf(n, INIT), path) && NameAt(NameOf(n, INIT), path, |path|) == x {
      var run := PathHasRun(n, v, backfill, names, edges, INIT, path);
    }
    if run :| IsRun(n, v, backfill, INIT, run) && NameOf(n, End(INIT, run)) == x {
      StartReachable(n, v, backfill);
      var path := RunHasPath(n, v, backfill, names, edges, INIT, run);
    }
  }
}
