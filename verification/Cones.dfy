/**
 The cones of influence of the benchmark targets: how many register and input bits the generators of
 `scripts/profile_cases.py` and the shapes of `scripts/bitcap_frontier.py` say they have, at every width.
 */
module Cones {

  import opened Arith
  import opened Basics
  import opened Btor
  import opened FsmParts

  // ---- what a target depends on ------------------------------------------------------------------------------

  /** Line `id` reads line `arg`: as an operand, or, for a state, as its next value. */
  predicate Reads(ls: Listing, id: int, arg: int) {
    1 <= id <= |ls| &&
    match ls[id - 1]
    case Not(_, a) => arg == Abs(a)
    case Bin(_, _, a, b) => arg == Abs(a) || arg == Abs(b)
    case Ite(_, c, t, e) => arg == Abs(c) || arg == Abs(t) || arg == Abs(e)
    case State(_, _) => exists j :: 0 <= j < |ls| && ls[j].Next? && ls[j].state == id && arg == Abs(ls[j].value)
    case _ => false
  }

  predicate IsChain(ls: Listing, p: seq<int>) {
    p != [] && forall i :: 0 <= i < |p| - 1 ==> Reads(ls, p[i], p[i + 1])
  }

  /** `id` is in the cone of `target`: a chain of reads leads there. */
  ghost predicate InCone(ls: Listing, target: int, id: int) {
    exists p :: IsChain(ls, p) && p[0] == target && p[|p| - 1] == id
  }

  lemma ConeStart(ls: Listing, target: int)
    ensures InCone(ls, target, target)
  {
    assert IsChain(ls, [target]) && [target][0] == target && [target][|[target]| - 1] == target;
  }

  lemma ConeStep(ls: Listing, target: int, id: int, arg: int)
    requires InCone(ls, target, id) && Reads(ls, id, arg)
    ensures InCone(ls, target, arg)
  {
    hide Reads;
    var p :| IsChain(ls, p) && p[0] == target && p[|p| - 1] == id;
    var q := p + [arg];
    forall i | 0 <= i < |q| - 1 ensures Reads(ls, q[i], q[i + 1]) {
      assert i < |p| - 1 ==> Reads(ls, p[i], p[i + 1]);
    }
    assert IsChain(ls, q) && q[0] == target && q[|q| - 1] == arg;
  }

  /** What nothing reads is not in the cone of anything else. */
  lemma NeverRead(ls: Listing, target: int, id: int)
    requires id != target && forall x :: !Reads(ls, x, id)
    ensures !InCone(ls, target, id)
  {
    hide Reads;
    forall p | IsChain(ls, p) && p[0] == target ensures p[|p| - 1] != id {
      if |p| > 1 {
        ChainEnds(ls, p);
      }
    }
  }

  lemma ChainEnds(ls: Listing, p: seq<int>)
    requires IsChain(ls, p) && |p| > 1
    ensures Reads(ls, p[|p| - 2], p[|p| - 1])
  {
    var i := |p| - 2;
    assert Reads(ls, p[i], p[i + 1]);
  }

  predicate IsBit(ls: Listing, id: int) {
    1 <= id <= |ls| && (ls[id - 1].State? || ls[id - 1].Input?)
  }

  /** `ids` are the registers and inputs in the cone, each once. */
  ghost predicate ConeIs(ls: Listing, target: int, ids: seq<int>) {
    Distinct(ids) && forall id :: id in ids <==> IsBit(ls, id) && InCone(ls, target, id)
  }

  /** The kept bits. */
  function TotalWidth(ls: Listing, ids: seq<int>): nat {
    if ids == [] then 0 else Width(ls, ids[0]) + TotalWidth(ls, ids[1..])
  }

  lemma StateReads(ls: Listing, id: int, at: int, value: int)
    requires 1 <= id <= |ls| && ls[id - 1].State? && 1 <= at <= |ls| && ls[at - 1].Next?
    requires ls[at - 1].state == id && ls[at - 1].value == value && value > 0
    ensures Reads(ls, id, value)
  {
    assert ls[at - 1].Next?;
  }

  /** A chain of reads, one line after another, is in the cone. */
  lemma {:induction false} ConePath(ls: Listing, target: int, p: seq<int>)
    requires IsChain(ls, p) && InCone(ls, target, p[0])
    ensures forall i :: 0 <= i < |p| ==> InCone(ls, target, p[i])
  {
    hide InCone, Reads;
    if |p| > 1 {
      var q := p[..|p| - 1];
      forall i | 0 <= i < |q| - 1 ensures Reads(ls, q[i], q[i + 1]) {
        assert Reads(ls, p[i], p[i + 1]);
      }
      ConePath(ls, target, q);
      ChainEnds(ls, p);
      ConeStep(ls, target, p[|p| - 2], p[|p| - 1]);
      forall i | 0 <= i < |p| ensures InCone(ls, target, p[i]) {
        assert i < |q| ==> InCone(ls, target, q[i]);
      }
    }
  }

  // ---- the line of an `ite` chain ------------------------------------------------------------------------------

  lemma SelectReads(ls: Listing, base: nat, s3: int, eqs: nat, arms: seq<int>, dflt: int, v: nat)
    requires Selects(ls, base, s3, eqs, arms, dflt) && v < 6 && arms[v] > 0 && dflt > 0
    ensures Reads(ls, base + 6 - v, eqs + 1 + v) && Reads(ls, base + 6 - v, arms[v])
    ensures v < 5 ==> Reads(ls, base + 6 - v, base + 5 - v)
  {
    assert ls[base + 5 - v] == SelectLine(base, s3, eqs, arms, dflt, base + 5 - v);
  }
}
