/**
 The issue path of one memory-fabric client port (`examples/verify/v10_mem_fabric_client_mux/generate.py`):
 the operational semantics of the four mux variants, for a stream of any length, and what each variant
 can and cannot do.
 */
module Fabric {
  import opened Basics

  datatype Variant = V1 | V2 | V3 | V4

  datatype Loc = Idle | Busy

  datatype Fault = Dup | Skip

  datatype Label = Grant | NoGrant | Accept | Refuse | GrantAbsorbed | Sink

  /** `ptr` is the client's address pointer, `reg` the issue register, `dlv` the address the memory
      expects next. */
  datatype State = State(loc: Loc, ptr: nat, reg: Option<nat>, dlv: nat, err: Option<Fault>)

  datatype Edge = Edge(labels: seq<Label>, next: State)

  const INIT := State(Idle, 0, None, 0, None)

  // ---- one clock edge ----------------------------------------------------------------------------------

  /** The delivery oracle: no fault, an address delivered before, or a word never issued. */
  function Classify(a: nat, dlv: nat): Option<Fault> {
    if a == dlv then None else if a < dlv then Some(Dup) else Some(Skip)
  }

  /** What the memory does with the request presented in this cycle. */
  datatype Retire = Nothing | Refused | Accepted

  function V1Edges(s: State, grant: bool): seq<Edge> {
    if !grant then [Edge([NoGrant], s)]
    else [Edge([Grant, Refuse], s),
          Edge([Grant, Accept],
               match Classify(s.ptr, s.dlv)
               case None => State(Idle, s.ptr + 1, None, s.dlv + 1, None)
               case Some(fault) => State(Idle, s.ptr, None, s.dlv, Some(fault)))]
  }

  function RetireLabels(acc: Retire): seq<Label> {
    match acc case Nothing => [] case Refused => [Refuse] case Accepted => [Accept]
  }

  /** The issue register, the pointer and the grant label after the capture half of an edge that raised
      no fault. */
  function Capture(n: nat, v: Variant, s: State, grant: bool, acc: Retire, ptr: nat, dlv: nat): Edge {
    var pre := RetireLabels(acc);
    if v == V4 && s.loc == Busy && acc != Accepted then
      Edge(pre + [if grant then GrantAbsorbed else NoGrant], State(Busy, ptr, s.reg, dlv, None))
    else if v == V4 && s.loc == Busy then
      Edge(pre + [if grant then GrantAbsorbed else NoGrant], State(Idle, ptr, None, dlv, None))
    else if grant then
      Edge(pre + [Grant],
           State(Busy, if v == V3 && s.ptr <= n then s.ptr + 1 else ptr, Some(s.ptr), dlv, None))
    else
      var held := s.loc == Busy && !(acc == Accepted || (acc == Refused && v in {V2, V3}));
      Edge(pre + [NoGrant], State(if held then Busy else Idle, ptr, if held then s.reg else None, dlv, None))
  }

  /** One edge of a registered variant, or none when it would leave the modelled range. */
  function Registered(n: nat, v: Variant, s: State, grant: bool, acc: Retire): seq<Edge> {
    var a := if s.reg.Some? then s.reg.value else 0;
    if acc == Accepted && Classify(a, s.dlv).Some? then
      [Edge([Accept] + [if grant then Grant else NoGrant], State(Idle, s.ptr, None, s.dlv, Classify(a, s.dlv)))]
    else
      var dlv := if acc == Accepted then s.dlv + 1 else s.dlv;
      var ptr := if acc == Accepted && v in {V2, V4} then s.ptr + 1 else s.ptr;
      var e := Capture(n, v, s, grant, acc, ptr, dlv);
      if e.next.ptr > n + 1 || e.next.dlv > n + 1 then [] else [e]
  }

  function GrantEdges(n: nat, v: Variant, backfill: bool, s: State, grant: bool): seq<Edge> {
    if grant && !backfill && s.loc == Busy then []
    else if v == V1 then V1Edges(s, grant)
    else if s.loc == Idle then Registered(n, v, s, grant, Nothing)
    else Registered(n, v, s, grant, Refused) + Registered(n, v, s, grant, Accepted)
  }

  /** All edges out of a state; an error or a complete stream is absorbing. */
  function Succ(n: nat, v: Variant, backfill: bool, s: State): seq<Edge> {
    if s.err.Some? || s.dlv > n then [Edge([Sink], s)]
    else GrantEdges(n, v, backfill, s, false) + GrantEdges(n, v, backfill, s, true)
  }

  /** `succ`, as it is written: two nested choices, each next-state field computed from the pre-state. */
  method Successors(n: nat, v: Variant, backfill: bool, s: State) returns (out: seq<Edge>)
    ensures out == Succ(n, v, backfill, s)
  {
    if s.err.Some? || s.dlv > n {
      return [Edge([Sink], s)];
    }
    out := [];
    var grants := [false, true];
    for i := 0 to 2
      invariant out == (if i >= 1 then GrantEdges(n, v, backfill, s, false) else [])
                     + (if i >= 2 then GrantEdges(n, v, backfill, s, true) else [])
    {
      hide GrantEdges;
      var some := OneGrant(n, v, backfill, s, grants[i]);
      out := out + some;
    }
  }

  method OneGrant(n: nat, v: Variant, backfill: bool, s: State, grant: bool) returns (out: seq<Edge>)
    ensures out == GrantEdges(n, v, backfill, s, grant)
  {
    hide Registered;
    if grant && !backfill && s.loc == Busy {
      return [];
    }
    if v == V1 {
      if !grant {
        return [Edge([NoGrant], s)];
      }
      var verdict := Classify(s.ptr, s.dlv);
      var next := if verdict.None? then State(Idle, s.ptr + 1, None, s.dlv + 1, None)
                  else State(Idle, s.ptr, None, s.dlv, verdict);
      return [Edge([Grant, Refuse], s), Edge([Grant, Accept], next)];
    }
    out := [];
    var retires := if s.loc == Idle then [Nothing] else [Refused, Accepted];
    for j := 0 to |retires|
      invariant out == (if j >= 1 then Registered(n, v, s, grant, retires[0]) else [])
                     + (if j >= 2 then Registered(n, v, s, grant, retires[1]) else [])
    {
      var edge := OneEdge(n, v, s, grant, retires[j]);
      if edge.Some? {
        out := out + [edge.value];
      }
    }
  }

  method OneEdge(n: nat, v: Variant, s: State, grant: bool, acc: Retire) returns (edge: Option<Edge>)
    ensures Registered(n, v, s, grant, acc) == if edge.Some? then [edge.value] else []
  {
    var nptr, ndlv, nerr, retired, lbl := s.ptr, s.dlv, None, false, [];
    if acc == Accepted {
      var verdict := Classify(if s.reg.Some? then s.reg.value else 0, s.dlv);
      if verdict.None? {
        ndlv := s.dlv + 1;
        if v in {V2, V4} {
          nptr := s.ptr + 1;
        }
      } else {
        nerr := verdict;
      }
      retired := true;
      lbl := [Accept];
    } else if acc == Refused {
      retired := v in {V2, V3};
      lbl := [Refuse];
    }
    if nerr.Some? {
      return Some(Edge(lbl + [if grant then Grant else NoGrant], State(Idle, s.ptr, None, s.dlv, nerr)));
    }
    var nloc, nreg;
    if v == V4 && s.loc == Busy && acc != Accepted {
      nloc, nreg := Busy, s.reg;
      lbl := lbl + [if grant then GrantAbsorbed else NoGrant];
    } else if v == V4 && s.loc == Busy && acc == Accepted {
      nloc, nreg := Idle, None;
      lbl := lbl + [if grant then GrantAbsorbed else NoGrant];
    } else if grant {
      nloc, nreg := Busy, Some(s.ptr);
      if v == V3 && s.ptr <= n {
        nptr := s.ptr + 1;
      }
      lbl := lbl + [Grant];
    } else {
      nloc := if s.loc == Busy && !retired then Busy else Idle;
      nreg := if nloc == Busy then s.reg else None;
      lbl := lbl + [NoGrant];
    }
    if nptr > n + 1 || ndlv > n + 1 {
      return None;
    }
    return Some(Edge(lbl, State(nloc, nptr, nreg, ndlv, nerr)));
  }

  // ---- runs --------------------------------------------------------------------------------------------

  /** The state after the first `k` edges of a run from `s`. */
  function At(s: State, run: seq<Edge>, k: nat): State
    requires k <= |run|
  {
    if k == 0 then s else run[k - 1].next
  }

  function End(s: State, run: seq<Edge>): State { At(s, run, |run|) }

  predicate IsRun(n: nat, v: Variant, backfill: bool, s: State, run: seq<Edge>) {
    forall k :: 0 <= k < |run| ==> run[k] in Succ(n, v, backfill, At(s, run, k))
  }

  lemma RunPrefix(n: nat, v: Variant, backfill: bool, s: State, run: seq<Edge>, k: nat)
    requires IsRun(n, v, backfill, s, run) && k <= |run|
    ensures IsRun(n, v, backfill, s, run[..k]) && End(s, run[..k]) == At(s, run, k)
  {
    forall i | 0 <= i < k ensures run[..k][i] in Succ(n, v, backfill, At(s, run[..k], i)) {
      assert run[i] in Succ(n, v, backfill, At(s, run, i));
    }
  }

  lemma RunAppend(n: nat, v: Variant, backfill: bool, s: State, a: seq<Edge>, b: seq<Edge>)
    requires IsRun(n, v, backfill, s, a) && IsRun(n, v, backfill, End(s, a), b)
    ensures IsRun(n, v, backfill, s, a + b) && End(s, a + b) == End(End(s, a), b)
  {
    hide Succ;
    var run := a + b;
    forall k | 0 <= k < |run| ensures run[k] in Succ(n, v, backfill, At(s, run, k)) {
      if k < |a| {
        assert a[k] in Succ(n, v, backfill, At(s, a, k));
      } else {
        assert b[k - |a|] in Succ(n, v, backfill, At(End(s, a), b, k - |a|));
      }
    }
  }

  // ---- what every edge keeps -----------------------------------------------------------------------------

  /** The reachable shapes of a fault-free state. */
  predicate Sound(n: nat, v: Variant, backfill: bool, s: State) {
    && s.dlv <= s.ptr <= n + 1
    && (s.loc == Idle <==> s.reg.None?)
    && match v
       case V1 => s.loc == Idle && s.ptr == s.dlv
       case V2 => s.ptr == s.dlv && (s.reg.Some? ==> s.reg.value == s.dlv || (backfill && s.reg.value + 1 == s.dlv))
       case V3 => s.reg.Some? ==> s.dlv <= s.reg.value && (s.ptr == s.reg.value + 1 || s.ptr == s.reg.value == n + 1)
       case V4 => s.ptr == s.dlv && (s.reg.Some? ==> s.reg.value == s.dlv)
  }

  /** A fault is a duplicate of v2 under backfill, or a skip of v3. */
  predicate Invariant(n: nat, v: Variant, backfill: bool, s: State) {
    && s.dlv <= n + 1 && s.ptr <= n + 1
    && match s.err
       case None => Sound(n, v, backfill, s)
       case Some(Dup) => v == V2 && backfill && n >= 1 && s.loc == Idle && s.reg.None? && s.dlv <= n
       case Some(Skip) => v == V3 && s.loc == Idle && s.reg.None? && s.dlv <= n
  }

  lemma RegisteredKeeps(n: nat, v: Variant, backfill: bool, s: State, grant: bool, acc: Retire, e: Edge)
    requires s.err.None? && s.dlv <= n && Sound(n, v, backfill, s) && v != V1
    requires s.loc == Idle <==> acc == Nothing
    requires grant && s.loc == Busy ==> backfill
    requires e in Registered(n, v, s, grant, acc)
    ensures Invariant(n, v, backfill, e.next)
  {
  }

  /** Where an edge of a live state comes from. */
  lemma EdgeOf(n: nat, v: Variant, backfill: bool, s: State, e: Edge) returns (grant: bool, acc: Retire)
    requires s.err.None? && s.dlv <= n && e in Succ(n, v, backfill, s) && v != V1
    ensures s.loc == Idle <==> acc == Nothing
    ensures grant && s.loc == Busy ==> backfill
    ensures e in Registered(n, v, s, grant, acc)
  {
    hide Registered;
    grant :| e in GrantEdges(n, v, backfill, s, grant);
    acc :| acc in (if s.loc == Idle then {Nothing} else {Refused, Accepted}) && e in Registered(n, v, s, grant, acc);
  }

  lemma EdgeKeeps(n: nat, v: Variant, backfill: bool, s: State, e: Edge)
    requires Invariant(n, v, backfill, s) && e in Succ(n, v, backfill, s)
    ensures Invariant(n, v, backfill, e.next)
  {
    if s.err.None? && s.dlv <= n && v != V1 {
      hide Succ, Registered;
      var grant, acc := EdgeOf(n, v, backfill, s, e);
      RegisteredKeeps(n, v, backfill, s, grant, acc, e);
    }
  }

  lemma {:induction false} RunKeeps(n: nat, v: Variant, backfill: bool, run: seq<Edge>)
    requires IsRun(n, v, backfill, INIT, run)
    ensures Invariant(n, v, backfill, End(INIT, run))
  {
    if run != [] {
      var k := |run| - 1;
      RunPrefix(n, v, backfill, INIT, run, k);
      RunKeeps(n, v, backfill, run[..k]);
      EdgeKeeps(n, v, backfill, At(INIT, run, k), run[k]);
    }
  }
}
