/**
 The edges of the memory-fabric study, by what a reader of a trace sees: which labels a state offers, what each of them
 does to the pointer, the issue register and the delivery count, and what that means over whole runs.
 */
module FabricSteps {
  import opened Basics
  import opened Fabric
  import opened FabricVerdicts

  /** No fault yet, and the stream not complete. */
  predicate Live(n: nat, s: State) { s.err.None? && s.dlv <= n }

  predicate Has(e: Edge, x: Label) { x in e.labels }

  // ---- what each variant does with the request it presents ------------------------------------------------------

  /** v4 holds a request until it is accepted: an edge that does not accept leaves the whole state as it was, a grant on
      it included. */
  lemma HeldUnlessAccepted(n: nat, backfill: bool, s: State, e: Edge)
    requires Live(n, s) && s.loc == Busy && e in Succ(n, V4, backfill, s) && !Has(e, Accept)
    ensures e.next == s && !Has(e, Grant)
  {
    var grant, acc := EdgeOf(n, V4, backfill, s, e);
  }

  /** An accepted request leaves the register, and in v2 and v3 a refused one does too: after an edge without a new
      grant the register is empty, and a refusal has moved nothing else. */
  lemma GoneUnlessGranted(n: nat, v: Variant, backfill: bool, s: State, e: Edge)
    requires v != V1 && Live(n, s) && s.loc == Busy && e in Succ(n, v, backfill, s) && !Has(e, Grant)
    requires v == V4 ==> Has(e, Accept)
    ensures e.next.loc == Idle && e.next.reg == None
    ensures Has(e, Refuse) ==> e.next == s.(loc := Idle, reg := None)
  {
    hide Succ;
    var grant, acc := EdgeOf(n, v, backfill, s, e);
  }

  /** A grant that is not absorbed latches the address the pointer had before the edge. */
  lemma GrantLatches(n: nat, v: Variant, backfill: bool, s: State, e: Edge)
    requires v != V1 && Live(n, s) && e in Succ(n, v, backfill, s) && Has(e, Grant) && e.next.err.None?
    ensures e.next.loc == Busy && e.next.reg == Some(s.ptr)
    ensures v == V4 ==> s.loc == Idle
  {
    hide Succ;
    var grant, acc := EdgeOf(n, v, backfill, s, e);
  }

  /** Where the pointer and the delivery count go: v3 advances its pointer on a grant, the others on an accept; a word
      counts as delivered on an accept that raises no fault, and only an accept raises one. */
  lemma Advances(n: nat, v: Variant, backfill: bool, s: State, e: Edge)
    requires Live(n, s) && e in Succ(n, v, backfill, s)
    ensures Moved(n, v, s, e)
  {
    if v == V1 {
      assert e in V1Edges(s, false) || e in V1Edges(s, true);
    } else {
      hide Succ, Moved;
      var grant, acc := EdgeOf(n, v, backfill, s, e);
      RegisteredMoves(n, v, s, grant, acc, e);
    }
  }

  predicate Moved(n: nat, v: Variant, s: State, e: Edge) {
    if e.next.err.Some? then Has(e, Accept) && e.next == State(Idle, s.ptr, None, s.dlv, e.next.err)
    else
      var advances := if v == V3 then Has(e, Grant) && s.ptr <= n else Has(e, Accept);
      e.next.dlv == s.dlv + (if Has(e, Accept) then 1 else 0) && e.next.ptr == s.ptr + if advances then 1 else 0
  }

  lemma RegisteredMoves(n: nat, v: Variant, s: State, grant: bool, acc: Retire, e: Edge)
    requires v != V1 && Live(n, s) && (s.loc == Idle <==> acc == Nothing) && e in Registered(n, v, s, grant, acc)
    ensures Moved(n, v, s, e)
  {
    RegisteredLabels(n, v, s, grant, acc, e);
  }

  /** The labels of an edge are its two choices. */
  lemma RegisteredLabels(n: nat, v: Variant, s: State, grant: bool, acc: Retire, e: Edge)
    requires v != V1 && (s.loc == Idle <==> acc == Nothing) && e in Registered(n, v, s, grant, acc)
    ensures Has(e, Accept) <==> acc == Accepted
    ensures Has(e, Refuse) <==> acc == Refused
    ensures Has(e, Grant) ==> grant
    ensures grant && !Has(e, Grant) ==> v == V4 && s.loc == Busy
  {
  }

  // ---- the free choices of the environment ------------------------------------------------------------------------

  /** The labels a live state offers. Grants are free on every edge, but for a strict schedule while a request is
      presented; a presented request is accepted or refused, freely; v4 absorbs a grant that meets a request. */
  function Offered(v: Variant, backfill: bool, s: State): seq<seq<Label>> {
    if v == V1 then
      if backfill || s.loc == Idle then [[NoGrant], [Grant, Refuse], [Grant, Accept]] else [[NoGrant]]
    else if s.loc == Idle then [[NoGrant], [Grant]]
    else
      var granted := if v == V4 then GrantAbsorbed else Grant;
      [[Refuse, NoGrant], [Accept, NoGrant]] + if backfill then [[Refuse, granted], [Accept, granted]] else []
  }

  /** The edge of a choice is never lost to the bound on the modelled range. */
  lemma RegisteredOffers(n: nat, v: Variant, backfill: bool, s: State, grant: bool, acc: Retire)
    requires v != V1 && Live(n, s) && Sound(n, v, backfill, s) && (s.loc == Idle <==> acc == Nothing)
    ensures exists e ::
              Registered(n, v, s, grant, acc) == [e]
              && e.labels == RetireLabels(acc)
                               + [if !grant then NoGrant else if v == V4 && s.loc == Busy then GrantAbsorbed else Grant]
  {
    var es := Registered(n, v, s, grant, acc);
    assert es == [es[0]];
    assert es[0].labels == RetireLabels(acc)
                             + [if !grant then NoGrant else if v == V4 && s.loc == Busy then GrantAbsorbed else Grant];
  }

  function GrantLabel(v: Variant, s: State, grant: bool): Label {
    if !grant then NoGrant else if v == V4 && s.loc == Busy then GrantAbsorbed else Grant
  }

  /** Every choice the labels name is on some edge. */
  lemma OfferedHas(n: nat, v: Variant, backfill: bool, s: State, grant: bool, acc: Retire)
    requires v != V1 && Live(n, s) && Sound(n, v, backfill, s) && (s.loc == Idle <==> acc == Nothing)
    requires grant && s.loc == Busy ==> backfill
    ensures exists e :: e in Succ(n, v, backfill, s) && e.labels == RetireLabels(acc) + [GrantLabel(v, s, grant)]
  {
    hide Registered;
    RegisteredOffers(n, v, backfill, s, grant, acc);
    var e :| Registered(n, v, s, grant, acc) == [e] && e.labels == RetireLabels(acc) + [GrantLabel(v, s, grant)];
    assert e in GrantEdges(n, v, backfill, s, grant);
    assert e in Succ(n, v, backfill, s);
  }

  /** What a live state offers is exactly what its edges carry: from every reachable state the environment is free. */
  lemma OffersExactly(n: nat, v: Variant, backfill: bool, s: State, labels: seq<Label>)
    requires Live(n, s) && Sound(n, v, backfill, s)
    ensures (exists e :: e in Succ(n, v, backfill, s) && e.labels == labels) <==> labels in Offered(v, backfill, s)
  {
    if v == V1 {
      WireOffers(n, backfill, s, labels);
    } else {
      hide Succ, Registered;
      if e :| e in Succ(n, v, backfill, s) && e.labels == labels {
        var grant, acc := EdgeOf(n, v, backfill, s, e);
        RegisteredOffers(n, v, backfill, s, grant, acc);
        LabelsKnown(v, backfill, s, grant, acc);
      }
      if labels in Offered(v, backfill, s) {
        var grant, acc := ChoiceOf(v, backfill, s, labels);
        OfferedHas(n, v, backfill, s, grant, acc);
      }
    }
  }

  /** ... and the edges are listed in that order: without a grant first, a refusal before an acceptance. */
  lemma OffersInOrder(n: nat, v: Variant, backfill: bool, s: State)
    requires Live(n, s) && Sound(n, v, backfill, s)
    ensures var es, all := Succ(n, v, backfill, s), Offered(v, backfill, s);
            |es| == |all| && forall i :: 0 <= i < |es| ==> es[i].labels == all[i]
  {
    if v == V1 {
      assert Succ(n, V1, backfill, s) == V1Edges(s, false) + V1Edges(s, true);
    } else {
      hide GrantEdges;
      GrantOffers(n, v, backfill, s, false);
      GrantOffers(n, v, backfill, s, true);
    }
  }

  lemma GrantOffers(n: nat, v: Variant, backfill: bool, s: State, grant: bool)
    requires v != V1 && Live(n, s) && Sound(n, v, backfill, s)
    ensures var es, g := GrantEdges(n, v, backfill, s, grant), GrantLabel(v, s, grant);
            if s.loc == Idle then |es| == 1 && es[0].labels == [g]
            else if grant && !backfill then es == []
            else |es| == 2 && es[0].labels == [Refuse, g] && es[1].labels == [Accept, g]
  {
    hide Registered, Sound;
    var g := GrantLabel(v, s, grant);
    if s.loc == Idle {
      RegisteredOffers(n, v, backfill, s, grant, Nothing);
      assert [] + [g] == [g];
    } else {
      RegisteredOffers(n, v, backfill, s, grant, Refused);
      RegisteredOffers(n, v, backfill, s, grant, Accepted);
      assert [Refuse] + [g] == [Refuse, g] && [Accept] + [g] == [Accept, g];
    }
  }

  lemma WireOffers(n: nat, backfill: bool, s: State, labels: seq<Label>)
    requires Live(n, s) && Sound(n, V1, backfill, s)
    ensures (exists e :: e in Succ(n, V1, backfill, s) && e.labels == labels) <==> labels in Offered(V1, backfill, s)
  {
    var all := Succ(n, V1, backfill, s);
    assert all == V1Edges(s, false) + V1Edges(s, true);
    assert all[0] in all && all[1] in all && all[2] in all;
    assert all[0].labels == [NoGrant] && all[1].labels == [Grant, Refuse] && all[2].labels == [Grant, Accept];
  }

  lemma LabelsKnown(v: Variant, backfill: bool, s: State, grant: bool, acc: Retire)
    requires v != V1 && (s.loc == Idle <==> acc == Nothing) && (grant && s.loc == Busy ==> backfill)
    ensures RetireLabels(acc) + [GrantLabel(v, s, grant)] in Offered(v, backfill, s)
  {
    var g := GrantLabel(v, s, grant);
    assert [] + [g] == [g] && [Refuse] + [g] == [Refuse, g] && [Accept] + [g] == [Accept, g];
  }

  lemma ChoiceOf(v: Variant, backfill: bool, s: State, labels: seq<Label>) returns (grant: bool, acc: Retire)
    requires v != V1 && labels in Offered(v, backfill, s)
    ensures (s.loc == Idle <==> acc == Nothing) && (grant && s.loc == Busy ==> backfill)
    ensures labels == RetireLabels(acc) + [GrantLabel(v, s, grant)]
  {
    acc := if s.loc == Idle then Nothing else if labels[0] == Refuse then Refused else Accepted;
    grant := labels[|labels| - 1] != NoGrant;
    var g := GrantLabel(v, s, grant);
    assert [] + [g] == [g] && [Refuse] + [g] == [Refuse, g] && [Accept] + [g] == [Accept, g];
  }

  /** ... and nothing else is free: the labels determine the next state. */
  lemma LabelsDecide(n: nat, v: Variant, backfill: bool, s: State, e: Edge, f: Edge)
    requires e in Succ(n, v, backfill, s) && f in Succ(n, v, backfill, s) && e.labels == f.labels
    ensures e == f
  {
    if s.err.None? && s.dlv <= n {
      if v == V1 {
        assert e in V1Edges(s, false) || e in V1Edges(s, true);
        assert f in V1Edges(s, false) || f in V1Edges(s, true);
      } else {
        hide Succ, Registered;
        var grant, acc := EdgeOf(n, v, backfill, s, e);
        var grant', acc' := EdgeOf(n, v, backfill, s, f);
        RegisteredLabels(n, v, s, grant, acc, e);
        RegisteredLabels(n, v, s, grant', acc', f);
        GrantShows(n, v, s, grant, acc, e);
        GrantShows(n, v, s, grant', acc', f);
        AtMostOne(n, v, s, grant, acc);
      }
    }
  }

  lemma GrantShows(n: nat, v: Variant, s: State, grant: bool, acc: Retire, e: Edge)
    requires v != V1 && e in Registered(n, v, s, grant, acc)
    ensures grant <==> !Has(e, NoGrant)
  {
  }

  lemma AtMostOne(n: nat, v: Variant, s: State, grant: bool, acc: Retire)
    ensures |Registered(n, v, s, grant, acc)| <= 1
  {
  }

  // ---- over whole runs --------------------------------------------------------------------------------------------

  predicate NoAccept(run: seq<Edge>, i: nat, j: nat)
    requires i <= j <= |run|
  {
    forall k :: i <= k < j ==> !Has(run[k], Accept)
  }

  /** v4: from the edge on that latched it, a request stays presented, the same address, however many grants and
      refusals there are, until it is accepted. */
  lemma {:induction false} HeldUntilAccepted(n: nat, backfill: bool, s: State, run: seq<Edge>, i: nat, j: nat)
    requires IsRun(n, V4, backfill, s, run) && i <= j <= |run| && NoAccept(run, i, j)
    requires Live(n, At(s, run, i)) && At(s, run, i).loc == Busy
    ensures At(s, run, j) == At(s, run, i)
    decreases j
  {
    hide Succ;
    if i < j {
      HeldUntilAccepted(n, backfill, s, run, i, j - 1);
      HeldUnlessAccepted(n, backfill, At(s, run, j - 1), run[j - 1]);
    }
  }

  /** Past `a`: it is neither presented nor pointed at. */
  predicate Beyond(s: State, a: nat) { s.ptr > a && (s.reg.Some? ==> s.reg.value > a) }

  lemma BeyondKept(n: nat, backfill: bool, s: State, e: Edge, a: nat)
    requires Beyond(s, a) && e in Succ(n, V3, backfill, s)
    ensures Beyond(e.next, a) && a !in Issued(V3, s, e)
  {
    if Live(n, s) {
      hide Succ;
      var grant, acc := EdgeOf(n, V3, backfill, s, e);
    }
  }

  /** v3: a refused address is never presented again, on any run on from the refusal. */
  lemma {:induction false} RefusedIsLost(n: nat, backfill: bool, s: State, e: Edge, run: seq<Edge>, k: nat)
    requires Invariant(n, V3, backfill, s) && e in Succ(n, V3, backfill, s) && Has(e, Refuse) && s.reg.Some?
    requires s.reg.value <= n && IsRun(n, V3, backfill, e.next, run) && k <= |run|
    ensures Beyond(At(e.next, run, k), s.reg.value)
    ensures k < |run| ==> s.reg.value !in Issued(V3, At(e.next, run, k), run[k])
    decreases k
  {
    hide Succ, Invariant, Beyond, Issued;
    if k == 0 {
      RefusedIsPassed(n, backfill, s, e);
    } else {
      RefusedIsLost(n, backfill, s, e, run, k - 1);
      BeyondKept(n, backfill, At(e.next, run, k - 1), run[k - 1], s.reg.value);
    }
    if k < |run| {
      BeyondKept(n, backfill, At(e.next, run, k), run[k], s.reg.value);
    }
  }

  lemma RefusedIsPassed(n: nat, backfill: bool, s: State, e: Edge)
    requires Invariant(n, V3, backfill, s) && e in Succ(n, V3, backfill, s) && Has(e, Refuse) && s.reg.Some?
    requires s.reg.value <= n
    ensures Beyond(e.next, s.reg.value)
  {
    assert Live(n, s);
    hide Succ;
    var grant, acc := EdgeOf(n, V3, backfill, s, e);
  }
}
