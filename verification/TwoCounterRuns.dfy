/**
 The two-counter benchmarks again, on runs of their listings: what the step machines of `TwoCounter` reach, the
 listings reach, after as many edges.
 */
module TwoCounterRuns {
  import opened Arith
  import opened Btor
  import opened TwoCounter

  // ---- input traces ------------------------------------------------------------------------------------

  function TurnsUpTo(run: seq<Env>, k: nat): (turns: seq<bool>)
    requires k <= |run|
    ensures |turns| == k
  {
    seq(k, i requires 0 <= i < k => run[i](3) != 0)
  }

  /** The registers at `s`, with the input at `turn`. */
  ghost function Turned(s: Latch, turn: bool): Env { id => Slot(s, turn, id) }

  function Slot(s: Latch, turn: bool, id: int): nat {
    if id == 3 then (if turn then 1 else 0) else if id == 5 then s.a else if id == 6 then s.b
    else if id == 21 && s.done then 1 else 0
  }

  ghost predicate Drivable(ls: Listing, s: Latch) {
    WellFormed(ls) && |ls| >= 3 && ls[2].Input? && forall turn :: Valuation(ls, Turned(s, turn))
  }

  /** Any turns drive a run from any registers that fit. */
  lemma DriveTurns(ls: Listing, s: Latch, turns: seq<bool>) returns (run: seq<Env>)
    requires Drivable(ls, s)
    ensures Run(ls, run) && |run| == |turns| + 1 && TurnsUpTo(run, |turns|) == turns
    ensures run[0](5) == s.a && run[0](6) == s.b && (run[0](21) != 0) == s.done && Valuation(ls, run[0])
  {
    var all := turns + [false];
    run := Drive(ls, [3], (turn: bool) => Turned(s, turn), all);
    SlotsAre(s, all[0]);
    forall j | 0 <= j < |turns| ensures (run[j](3) != 0) == turns[j] {
      assert 3 in [3] && run[j](3) == Turned(s, all[j])(3);
    }
    assert TurnsUpTo(run, |turns|) == turns;
  }

  lemma SlotsAre(s: Latch, turn: bool)
    ensures Turned(s, turn)(5) == s.a && Turned(s, turn)(6) == s.b && (Turned(s, turn)(21) != 0) == s.done
  {
  }

  // ---- the forward form -----------------------------------------------------------------------------------

  /** Every run of the forward listing from reset is a run of the counters. */
  lemma {:induction false} ForwardRun(m: nat, run: seq<Env>, k: nat)
    requires m >= 1 && Run(Forward(m), run) && Initial(Forward(m), run[0]) && k < |run|
    ensures (run[k](5), run[k](6)) == FwdExec(Bits(m), TurnsUpTo(run, k))
  {
    hide Forward, Valuation, WellFormed;
    if k == 0 {
      ForwardReset(m, run[0]);
    } else {
      ForwardRun(m, run, k - 1);
      assert Edge(Forward(m), run[k - 1], run[k - 1 + 1]);
      ForwardEdge(m, run[k - 1], run[k]);
      assert TurnsUpTo(run, k)[..k - 1] == TurnsUpTo(run, k - 1);
    }
  }

  lemma ForwardReset(m: nat, env: Env)
    requires m >= 1 && Valuation(Forward(m), env)
    ensures Initial(Forward(m), env) <==> env(5) == 0 && env(6) == 0
  {
    var ls := Forward(m);
    ForwardOk(m);
    forall i | 0 <= i < 20 && i != 6 && i != 7 ensures !ls[i].Init? {
    }
    hide Forward, Val, Valuation, WellFormed;
    LeafVal(ls, env, 4);
    assert ls[6] == Init(2, 5, 4) && ls[7] == Init(2, 6, 4);
  }

  const RESET := Latch(0, 0, false)

  lemma ForwardFits(m: nat)
    requires m >= 1
    ensures Drivable(Forward(m), RESET)
  {
    var ls := Forward(m);
    ForwardOk(m);
    forall i | 0 <= i < 20 && i != 2 ensures !ls[i].Input? {
    }
    CommonWidths(ls, Bits(m));
    assert ls[2] == Input(1, "turn") && Pow2(1) == 2;
    hide Forward, WellFormed;
  }

  /** Every run of the counters is a run of the forward listing from reset. */
  lemma ForwardExecIsRun(m: nat, turns: seq<bool>) returns (run: seq<Env>)
    requires m >= 1
    ensures Run(Forward(m), run) && Initial(Forward(m), run[0]) && |run| == |turns| + 1
    ensures (run[|turns|](5), run[|turns|](6)) == FwdExec(Bits(m), turns)
  {
    hide Forward, Valuation, Initial, Run, FwdExec, WellFormed, Drivable;
    ForwardFits(m);
    run := DriveTurns(Forward(m), RESET, turns);
    ForwardReset(m, run[0]);
    ForwardRun(m, run, |turns|);
  }

  lemma LastFits(ls: Listing, run: seq<Env>, k: nat)
    requires Run(ls, run) && k < |run|
    ensures Valuation(ls, run[k])
  {
    if k > 0 {
      assert Edge(ls, run[k - 1], run[k - 1 + 1]);
    }
  }

  /** A run of the forward listing from reset of `k` edges, at whose end `bad` holds. */
  ghost predicate BadRun(m: nat, run: seq<Env>, k: nat)
    requires m >= 1
  {
    Run(Forward(m), run) && Initial(Forward(m), run[0]) && |run| == k + 1 && BadAt(Forward(m), run[k])
  }

  /** On the listing itself: `bad` is hit after exactly `k` edges iff `k` is `2(m-1)` plus a multiple of `2^w`. */
  lemma NetBadDepth(m: nat, k: nat)
    requires m >= 1
    ensures (exists run :: BadRun(m, run, k)) <==> k >= 2 * (m - 1) && (k - 2 * (m - 1)) % Pow2(Bits(m)) == 0
  {
    BadDepth(m, k);
    hide Forward, Initial, FwdExec, Pow2, Bits, BadAt, Valuation;
    if run :| BadRun(m, run, k) {
      LastFits(Forward(m), run, k);
      ForwardBad(m, run[k]);
      ForwardRun(m, run, k);
      var turns := TurnsUpTo(run, k);
      assert |turns| == k && FwdExec(Bits(m), turns) == (m - 1, m - 1);
    }
    if turns: seq<bool> :| |turns| == k && FwdExec(Bits(m), turns) == (m - 1, m - 1) {
      var run := ForwardExecIsRun(m, turns);
      LastFits(Forward(m), run, k);
      ForwardBad(m, run[k]);
      assert BadRun(m, run, k);
    }
  }

  // ---- the latched form -----------------------------------------------------------------------------------

  function View(env: Env): Latch { Latch(env(5), env(6), env(21) != 0) }

  /** Every run of the latched listing is a run of the counters, from every state the widths admit. */
  lemma {:induction false} LatchedRun(m: nat, run: seq<Env>, k: nat)
    requires m >= 1 && Run(Latched(m), run) && k < |run| && Fits(m, View(run[0]))
    ensures View(run[k]) == Exec(m, View(run[0]), TurnsUpTo(run, k)) && Fits(m, View(run[k]))
  {
    hide Latched, Valuation, WellFormed;
    if k > 0 {
      LatchedRun(m, run, k - 1);
      assert Edge(Latched(m), run[k - 1], run[k - 1 + 1]);
      LatchedEdge(m, run[k - 1], run[k]);
      assert TurnsUpTo(run, k) == TurnsUpTo(run, k - 1) + [run[k - 1](3) != 0];
      ExecAppend(m, View(run[0]), TurnsUpTo(run, k - 1), run[k - 1](3) != 0);
    }
  }

  lemma LatchedSlots(m: nat, i: nat)
    requires m >= 1 && i < 26 && |Latched(m)| == 26
    ensures Latched(m)[i].State? || Latched(m)[i].Input? ==> i in {2, 4, 5, 20}
    ensures Latched(m)[i].Init? ==> i in {6, 7, 22}
  {
    hide Bits;
  }

  lemma LatchedStates(m: nat)
    requires m >= 1
    ensures var ls := Latched(m);
            && |ls| == 26 && ls[2] == Input(1, "turn") && ls[4] == State(2, "a") && ls[5] == State(2, "b")
            && ls[20] == State(1, "done")
  {
    hide Bits;
  }

  lemma LatchedFits(m: nat, s: Latch)
    requires m >= 1 && Fits(m, s)
    ensures Drivable(Latched(m), s)
  {
    var ls, w := Latched(m), Bits(m);
    LatchedOk(m);
    assert |ls| == 26;
    forall i | 0 <= i < 26 ensures ls[i].State? || ls[i].Input? ==> i in {2, 4, 5, 20} {
      LatchedSlots(m, i);
    }
    CommonWidths(ls, w);
    assert ls[2] == Input(1, "turn") && ls[4] == State(2, "a") && ls[5] == State(2, "b") && ls[20] == State(1, "done");
    hide Latched, WellFormed, Bits, CommonLines, CounterLines, DoneLines, Valuation, Turned;
    forall turn ensures Valuation(ls, Turned(s, turn)) {
      SlotsFit(ls, w, m, s, turn);
    }
  }

  lemma SlotsFit(ls: Listing, w: nat, m: nat, s: Latch, turn: bool)
    requires m >= 1 && |ls| == 26 && Fits(m, s) && w == Bits(m) && SortWidth(ls, 1) == 1 && SortWidth(ls, 2) == w
    requires ls[2] == Input(1, "turn") && ls[4] == State(2, "a") && ls[5] == State(2, "b") && ls[20] == State(1, "done")
    requires forall i :: 0 <= i < 26 && (ls[i].State? || ls[i].Input?) ==> i in {2, 4, 5, 20}
    ensures Valuation(ls, Turned(s, turn))
  {
    assert Pow2(1) == 2;
    hide Pow2, SortWidth;
  }

  lemma LatchedInits(m: nat)
    requires m >= 1
    ensures |Latched(m)| == 26
    ensures Latched(m)[6] == Init(2, 5, 4) && Latched(m)[7] == Init(2, 6, 4) && Latched(m)[22] == Init(1, 21, 22)
    ensures Latched(m)[3] == Const(2, Zero) && Latched(m)[21] == Const(1, Zero)
  {
    hide Bits;
  }

  lemma LatchedReset(m: nat, env: Env)
    requires m >= 1 && Valuation(Latched(m), env)
    ensures Initial(Latched(m), env) <==> View(env) == RESET
  {
    hide Latched, Val, Valuation, WellFormed, CommonLines, CounterLines, DoneLines, LineOk;
    var ls := Latched(m);
    LatchedOk(m);
    LatchedInits(m);
    forall i | 0 <= i < 26 ensures ls[i].Init? ==> i in {6, 7, 22} {
      LatchedSlots(m, i);
    }
    LeafVal(ls, env, 4);
    LeafVal(ls, env, 22);
  }

  /** Every run of the counters from `s` is a run of the latched listing. */
  lemma LatchedExecIsRun(m: nat, s: Latch, turns: seq<bool>) returns (run: seq<Env>)
    requires m >= 1 && Fits(m, s)
    ensures Run(Latched(m), run) && |run| == |turns| + 1 && View(run[0]) == s && View(run[|turns|]) == Exec(m, s, turns)
    ensures s == RESET ==> Initial(Latched(m), run[0])
  {
    hide Latched, Valuation, Initial, Run, Exec, WellFormed, Drivable;
    LatchedFits(m, s);
    run := DriveTurns(Latched(m), s, turns);
    LatchedRun(m, run, |turns|);
    if s == RESET {
      LatchedReset(m, run[0]);
    }
  }

  /** A run of `k` edges of the latched listing from the registers `s`. */
  ghost predicate LatchedFrom(m: nat, s: Latch, run: seq<Env>, k: nat)
    requires m >= 1
  {
    Run(Latched(m), run) && |run| == k + 1 && View(run[0]) == s
  }

  predicate AtCorner(m: nat, s: Latch) { s.a == m - 1 && s.b == m - 1 }

  /** On the listing itself, from every state the widths admit: some run is at the corner after the distance, and none
      sooner. */
  lemma NetCornerDepth(m: nat, s: Latch)
    requires m >= 1 && Fits(m, s)
    ensures exists run :: LatchedFrom(m, s, run, Distance(m, s)) && AtCorner(m, View(run[Distance(m, s)]))
    ensures forall run, k: nat :: LatchedFrom(m, s, run, k) && AtCorner(m, View(run[k])) ==> k >= Distance(m, s)
  {
    hide Latched, Run, Exec, Distance;
    CornerDepth(m, s);
    var turns :| |turns| == Distance(m, s) && Exec(m, s, turns).a == m - 1 && Exec(m, s, turns).b == m - 1;
    var r := LatchedExecIsRun(m, s, turns);
    assert LatchedFrom(m, s, r, Distance(m, s));
    forall run, k: nat | LatchedFrom(m, s, run, k) && AtCorner(m, View(run[k])) ensures k >= Distance(m, s) {
      LatchedRun(m, run, k);
    }
  }

  /** On the listing itself, from every state whose latch is clear: some run of `k` edges latches `done` if
      and only if `k` is more than the distance. */
  lemma NetDoneDepth(m: nat, s: Latch, k: nat)
    requires m >= 1 && Fits(m, s) && !s.done
    ensures (exists run :: LatchedFrom(m, s, run, k) && View(run[k]).done) <==> k >= Distance(m, s) + 1
  {
    hide Latched, Run, Exec, Distance;
    DoneDepth(m, s);
    if k >= Distance(m, s) + 1 {
      var turns :| |turns| == Distance(m, s) + 1 && Exec(m, s, turns).done;
      var longer := turns + seq(k - |turns|, _ => false);
      DoneStays(m, s, turns, k - |turns|);
      var run := LatchedExecIsRun(m, s, longer);
      assert LatchedFrom(m, s, run, k) && View(run[k]).done;
    }
    forall run | LatchedFrom(m, s, run, k) && View(run[k]).done ensures k >= Distance(m, s) + 1 {
      LatchedRun(m, run, k);
    }
  }

  lemma {:induction false} DoneStays(m: nat, s: Latch, turns: seq<bool>, n: nat)
    requires m >= 1 && Exec(m, s, turns).done
    ensures Exec(m, s, turns + seq(n, _ => false)).done
    decreases n
  {
    if n == 0 {
      assert turns + seq(0, _ => false) == turns;
    } else {
      DoneStays(m, s, turns, n - 1);
      var init := turns + seq(n - 1, _ => false);
      assert turns + seq(n, _ => false) == init + [false];
      ExecAppend(m, s, init, false);
    }
  }

  /** From reset: `done` is latched after exactly `k` edges of some run if and only if `k` is at least 2(m-1) + 1. */
  lemma NetDoneFromReset(m: nat, k: nat)
    requires m >= 1
    ensures (exists run :: LatchedFrom(m, RESET, run, k) && Initial(Latched(m), run[0]) && View(run[k]).done)
       <==> k >= 2 * (m - 1) + 1
  {
    hide Latched, Run, Exec, Initial;
    NetDoneDepth(m, RESET, k);
    if run :| LatchedFrom(m, RESET, run, k) && View(run[k]).done {
      LatchedStarts(m, run);
      LatchedReset(m, run[0]);
    }
  }

  lemma LatchedStarts(m: nat, run: seq<Env>)
    requires m >= 1 && Run(Latched(m), run)
    ensures Valuation(Latched(m), run[0])
  {
  }

  /** The target `done == 1` names line 21, the only register of that name, and the input is `turn`. */
  lemma LatchedNames(m: nat)
    requires m >= 1
    ensures var ls := Latched(m);
            |ls| == 26 && ls[2] == Input(1, "turn")
            && forall i :: 0 <= i < |ls| && ls[i].State? ==> (ls[i].symbol == "done" <==> i == 20)
  {
    LatchedStates(m);
    forall i | 0 <= i < 26 && Latched(m)[i].State? ensures i in {2, 4, 5, 20} {
      LatchedSlots(m, i);
    }
    assert "done"[0] != "a"[0] && "done"[0] != "b"[0];
  }
}
