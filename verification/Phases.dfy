/**
 The control benchmarks of `scripts/profile_cases.py` seen from where each state is entered, on one edge and over whole
 traces of inputs: when a transaction of the timeout machine completes and when it times out, exactly.
 */
module Phases {
  import opened Arith
  import opened Btor
  import opened FsmParts
  import T = TimeoutFsm
  import C = TimeoutCircuit
  import P = PairCircuit
  import H = HandshakePair

  // ---- how each state is entered ----------------------------------------------------------------------------------

  /** Each state of the six-state machine, by the states and inputs that lead to it: REQ by a start, WAIT after REQ or
      while nothing has come, ACTIVE by an acknowledgement (which `level` lets it stay for), DONE after ACTIVE, ERROR by
      a timeout without an acknowledgement, IDLE by a clear, after DONE, or out of an illegal code. */
  lemma Entered(stuck: bool, level: bool, st: nat, expired: bool, start: bool, ack: bool, clr: bool)
    ensures var t := C.NextState(stuck, level, st, expired, start, ack, clr);
            && (t == 1 <==> st == 0 && start)
            && (t == 2 <==> st == 1 || (st == 2 && !ack && !expired))
            && (t == 3 <==> ack && (st == 2 || (level && st == 3)))
            && (t == 4 <==> st == 3 && !(level && ack))
            && (t == 5 <==> (st == 2 && !ack && expired) || (st == 5 && (stuck || !clr)))
            && (t == 0 <==> (st == 0 && !start) || st == 4 || st > 5 || (st == 5 && clr && !stuck))
  {
  }

  /** The same of the listing's registers, on every edge: line 12 is the state, 14 the timer, 7 the limit, and 4 to 6
      the inputs. */
  lemma EnteredOnEdge(ls: Listing, w: nat, stuck: bool, env: Env, env': Env)
    requires T.Benchmark(ls, w, stuck) && Edge(ls, env, env')
    ensures env'(12) == 1 <==> env(12) == 0 && env(4) != 0
    ensures env'(12) == 2 <==> env(12) == 1 || (env(12) == 2 && env(5) == 0 && env(14) != env(7))
    ensures env'(12) == 3 <==> env(12) == 2 && env(5) != 0
    ensures env'(12) == 4 <==> env(12) == 3
    ensures env'(12) == 5 <==>
            (env(12) == 2 && env(5) == 0 && env(14) == env(7)) || (env(12) == 5 && (stuck || env(6) == 0))
    ensures env'(7) == env(7)
    ensures env'(14) == if env(12) == 2 && env(5) == 0 then Inc(w, env(14)) else 0
  {
    T.EdgeIsStep(ls, w, stuck, env, env');
    Entered(stuck, false, env(12), env(14) == env(7), env(4) != 0, env(5) != 0, env(6) != 0);
  }

  /** Both machines of the pair, on every edge: lines 12 and 14 are their states, each read by the other before the
      edge. */
  lemma PairEnteredOnEdge(ls: Listing, w: nat, env: Env, env': Env)
    requires H.Benchmark(ls, w) && Edge(ls, env, env')
    ensures var requests, grants := env(12) == 1 || env(12) == 2, env(14) == 2 || env(14) == 3;
            && (env'(12) == 1 <==> env(12) == 0 && env(4) != 0)
            && (env'(12) == 2 <==> env(12) == 1 || (env(12) == 2 && !grants && env(16) != env(7)))
            && (env'(12) == 3 <==> (env(12) == 2 && grants) || (env(12) == 3 && env(5) == 0))
            && (env'(12) == 4 <==> env(12) == 3 && env(5) != 0)
            && (env'(12) == 5 <==> (env(12) == 2 && !grants && env(16) == env(7)) || (env(12) == 5 && env(6) == 0))
            && (env'(14) == 1 <==> env(14) == 0 && requests)
            && (env'(14) == 2 <==> env(14) == 1)
            && (env'(14) == 3 <==> env(14) == 2 || (env(14) == 3 && requests && env(18) != env(7)))
            && (env'(14) == 4 <==> env(14) == 3 && !requests)
            && (env'(14) == 5 <==> (env(14) == 3 && requests && env(18) == env(7)) || (env(14) == 5 && env(6) == 0))
            && env'(12) < 6 && env'(14) < 6 && env'(7) == env(7)
  {
    H.EdgeIsStep(ls, w, env, env');
    hide Edge;
    var c := H.View(env);
    RequesterEntered(c.r, c.Grants(), c.tr == c.limit, env(4) != 0, env(5) != 0, env(6) != 0);
    GranterEntered(c.g, c.Requests(), c.tg == c.limit, env(6) != 0);
  }

  lemma RequesterEntered(r: nat, granted: bool, expired: bool, start: bool, done: bool, clr: bool)
    ensures var t := P.NextReq(r, granted, expired, start, done, clr);
            && (t == 1 <==> r == 0 && start)
            && (t == 2 <==> r == 1 || (r == 2 && !granted && !expired))
            && (t == 3 <==> (r == 2 && granted) || (r == 3 && !done))
            && (t == 4 <==> r == 3 && done)
            && (t == 5 <==> (r == 2 && !granted && expired) || (r == 5 && !clr))
            && t < 6
  {
  }

  lemma GranterEntered(g: nat, requested: bool, expired: bool, clr: bool)
    ensures var t := P.NextGnt(g, requested, expired, clr);
            && (t == 1 <==> g == 0 && requested)
            && (t == 2 <==> g == 1)
            && (t == 3 <==> g == 2 || (g == 3 && requested && !expired))
            && (t == 4 <==> g == 3 && !requested)
            && (t == 5 <==> (g == 3 && requested && expired) || (g == 5 && !clr))
            && t < 6
  {
  }

  // ---- the names the targets use ----------------------------------------------------------------------------------

  /** The one register the target `fsm_st == 0` names is line 12, and the inputs are `start`, `ack` and `clr`. */
  lemma TimeoutNames(ls: Listing, w: nat, stuck: bool)
    requires T.Benchmark(ls, w, stuck)
    ensures |ls| >= 15
    ensures forall i :: 0 <= i < |ls| && ls[i].State? ==> (ls[i].symbol == "fsm_st" <==> i == 11)
    ensures forall i :: 0 <= i < |ls| && ls[i].State? ==> (ls[i].symbol == "fsm_tmr" <==> i == 13)
    ensures ls[3] == Input(1, "start") && ls[4] == Input(1, "ack") && ls[5] == Input(1, "clr")
  {
    T.OtherLines(ls, w, stuck);
    hide C.Arms, C.Tail, WellFormed, C.PortsOk;
    assert ls[11] == State(2, "fsm_st") && ls[13] == State(3, "fsm_tmr") && ls[6] == State(3, "limit") by {
      assert "fsm" + "_st" == "fsm_st" && "fsm" + "_tmr" == "fsm_tmr";
    }
    assert "fsm_st"[5] != "fsm_tmr"[5] && "limit"[0] != "fsm_st"[0];
  }

  /** The target `req_st == 0` names line 12 of the pair, which is not the granter's register. */
  lemma PairNames(ls: Listing, w: nat)
    requires H.Benchmark(ls, w)
    ensures |ls| == 74
    ensures forall i :: 0 <= i < |ls| && ls[i].State? ==> (ls[i].symbol == "req_st" <==> i == 11)
    ensures forall i :: 0 <= i < |ls| && ls[i].State? ==> (ls[i].symbol == "gnt_st" <==> i == 13)
  {
    PairSymbols(ls, w);
    forall i | 0 <= i < |ls| && ls[i].State? ensures i in {6, 11, 13, 15, 17} {
      H.StateLines(ls, w, i);
    }
  }

  lemma PairSymbols(ls: Listing, w: nat)
    requires P.Header(ls, w) && P.Registers(ls)
    ensures |ls| >= 19 && ls[3].Input? && ls[4].Input? && ls[5].Input?
    ensures ls[6].State? && ls[11].State? && ls[13].State? && ls[15].State? && ls[17].State?
    ensures ls[11].symbol == "req_st" && ls[13].symbol == "gnt_st"
    ensures forall i :: i in {6, 11, 15, 17} ==> ls[i].symbol != "gnt_st"
    ensures forall i :: i in {6, 13, 15, 17} ==> ls[i].symbol != "req_st"
  {
    assert "req_st"[0] != "gnt_st"[0] && "req_st"[4] != "req_tmr"[4] && "gnt_st"[4] != "gnt_tmr"[4]
           && "limit"[0] != "req_st"[0] && "limit"[0] != "gnt_st"[0] && "req_st"[0] != "gnt_tmr"[0]
           && "gnt_st"[0] != "req_tmr"[0];
  }

  // ---- transactions of the timeout machine ------------------------------------------------------------------------

  /** The run is IDLE after `i` edges, starts there, and waits without a reply for `j` edges from the third on. */
  predicate Waits(w: nat, stuck: bool, limit: nat, ins: seq<Inputs>, i: nat, j: nat) {
    && i + 2 + j <= |ins| && T.Exec(w, stuck, T.Reset(limit), ins[..i]).st == 0 && ins[i].start
    && forall k :: i + 2 <= k < i + 2 + j ==> !ins[k].reply
  }

  lemma ExecSnoc(w: nat, stuck: bool, c: T.Config, ins: seq<Inputs>, k: nat)
    requires k < |ins|
    ensures T.Exec(w, stuck, c, ins[..k + 1]) == T.Step(w, stuck, T.Exec(w, stuck, c, ins[..k]), ins[k])
  {
    assert ins[..k + 1][..k] == ins[..k];
  }

  /** Waiting forwards: `j` edges without a reply count to `j`, up to the limit. */
  lemma {:induction false} WaitForwards(w: nat, stuck: bool, limit: nat, ins: seq<Inputs>, i: nat, j: nat)
    requires limit < Pow2(w) && Waits(w, stuck, limit, ins, i, j) && j <= limit
    ensures T.Exec(w, stuck, T.Reset(limit), ins[..i + 2 + j]) == T.Config(2, j, limit)
    decreases j
  {
    hide Pow2;
    if j == 0 {
      WaitStarts(w, stuck, limit, ins, i);
    } else {
      WaitForwards(w, stuck, limit, ins, i, j - 1);
      ExecSnoc(w, stuck, T.Reset(limit), ins, i + 1 + j);
      hide T.Exec;
      assert !ins[i + 1 + j].reply;
    }
  }

  /** Two edges after a start the machine waits, with its timer at 0. */
  lemma WaitStarts(w: nat, stuck: bool, limit: nat, ins: seq<Inputs>, i: nat)
    requires limit < Pow2(w) && Waits(w, stuck, limit, ins, i, 0)
    ensures T.Exec(w, stuck, T.Reset(limit), ins[..i + 2]) == T.Config(2, 0, limit)
  {
    ExecSnoc(w, stuck, T.Reset(limit), ins, i);
    ExecSnoc(w, stuck, T.Reset(limit), ins, i + 1);
    T.RunsReach(w, stuck, limit, ins[..i]);
  }

  /** The last edge of a run from reset, by where it leads. */
  lemma LastEdge(w: nat, stuck: bool, limit: nat, ins: seq<Inputs>)
    requires limit < Pow2(w) && ins != []
    ensures var c, d := T.Exec(w, stuck, T.Reset(limit), ins[..|ins| - 1]), T.Exec(w, stuck, T.Reset(limit), ins);
            var i := ins[|ins| - 1];
            && (d.st == 1 <==> c.st == 0 && i.start)
            && (d.st == 2 <==> c.st == 1 || (c.st == 2 && !i.reply && c.tmr != limit))
            && (d.st == 5 && c.st != 5 <==> c.st == 2 && !i.reply && c.tmr == limit)
            && (d.st == 2 ==> d.tmr == if c.st == 1 then 0 else c.tmr + 1)
  {
    var c := T.Exec(w, stuck, T.Reset(limit), ins[..|ins| - 1]);
    T.RunsReach(w, stuck, limit, ins[..|ins| - 1]);
    hide Pow2;
    T.WaitNeverOverruns(w, stuck, limit, ins[..|ins| - 1], ins[|ins| - 1]);
    var i := ins[|ins| - 1];
    Entered(stuck, false, c.st, c.tmr == c.limit, i.start, i.reply, i.clr);
  }

  /** Waiting backwards: a run in WAIT has waited as long as its timer says, since a start from IDLE. */
  lemma {:induction false} WaitBackwards(w: nat, stuck: bool, limit: nat, ins: seq<Inputs>) returns (i: nat)
    requires limit < Pow2(w) && T.Exec(w, stuck, T.Reset(limit), ins).st == 2
    ensures var j := T.Exec(w, stuck, T.Reset(limit), ins).tmr;
            |ins| == i + 2 + j && j <= limit && Waits(w, stuck, limit, ins, i, j)
    decreases |ins|
  {
    hide Pow2;
    var n := |ins|;
    assert n > 0;
    T.RunsReach(w, stuck, limit, ins);
    LastEdge(w, stuck, limit, ins);
    hide T.Exec, T.Step, C.NextState;
    var init := ins[..n - 1];
    if T.Exec(w, stuck, T.Reset(limit), init).st == 1 {
      assert init != [] by { StartIsIdle(w, stuck, limit, init); }
      LastEdge(w, stuck, limit, init);
      i := n - 2;
      assert init[..i] == ins[..i];
    } else {
      i := WaitBackwards(w, stuck, limit, init);
      assert init[..i] == ins[..i];
    }
  }

  lemma StartIsIdle(w: nat, stuck: bool, limit: nat, ins: seq<Inputs>)
    ensures ins == [] ==> T.Exec(w, stuck, T.Reset(limit), ins).st == 0
  {
  }

  /** A run from reset is in WAIT exactly when it was IDLE, started, and has had no reply since it began to wait, for no
      more edges than the limit. */
  lemma WaitExactly(w: nat, stuck: bool, limit: nat, ins: seq<Inputs>)
    requires limit < Pow2(w)
    ensures T.Exec(w, stuck, T.Reset(limit), ins).st == 2 <==>
            exists i: nat, j: nat :: j <= limit && |ins| == i + 2 + j && Waits(w, stuck, limit, ins, i, j)
  {
    hide Pow2;
    if T.Exec(w, stuck, T.Reset(limit), ins).st == 2 {
      var i := WaitBackwards(w, stuck, limit, ins);
      assert Waits(w, stuck, limit, ins, i, |ins| - i - 2);
    }
    if i: nat, j: nat :| j <= limit && |ins| == i + 2 + j && Waits(w, stuck, limit, ins, i, j) {
      WaitForwards(w, stuck, limit, ins, i, j);
      assert ins[..|ins|] == ins;
    }
  }

  /** DONE comes two edges after an acknowledgement in WAIT, and only so. */
  lemma AckedBefore(w: nat, stuck: bool, limit: nat, ins: seq<Inputs>)
    ensures T.Exec(w, stuck, T.Reset(limit), ins).st == 4 <==>
            |ins| >= 2 && T.Exec(w, stuck, T.Reset(limit), ins[..|ins| - 2]).st == 2 && ins[|ins| - 2].reply
  {
    var n := |ins|;
    assert ins[..n] == ins;
    if n >= 1 {
      ExecSnoc(w, stuck, T.Reset(limit), ins, n - 1);
    }
    if n >= 2 {
      ExecSnoc(w, stuck, T.Reset(limit), ins, n - 2);
    }
  }

  /** Whether a trace waits does not depend on what follows the wait. */
  lemma WaitsKept(w: nat, stuck: bool, limit: nat, ins: seq<Inputs>, n: nat, i: nat, j: nat)
    requires n <= |ins| && i + 2 + j <= n
    ensures Waits(w, stuck, limit, ins[..n], i, j) <==> Waits(w, stuck, limit, ins, i, j)
  {
    assert ins[..n][..i] == ins[..i];
  }

  /** A transaction completes: a run from reset is in DONE exactly when it was IDLE, started, waited for `j` edges
      without a reply, no more than the limit, and then was acknowledged, two edges ago. */
  lemma DoneExactly(w: nat, stuck: bool, limit: nat, ins: seq<Inputs>)
    requires limit < Pow2(w)
    ensures T.Exec(w, stuck, T.Reset(limit), ins).st == 4 <==>
            exists i: nat, j: nat ::
              j <= limit && |ins| == i + 4 + j && Waits(w, stuck, limit, ins, i, j) && ins[i + 2 + j].reply
  {
    hide Pow2, Waits, T.Exec;
    var n := |ins|;
    AckedBefore(w, stuck, limit, ins);
    if T.Exec(w, stuck, T.Reset(limit), ins).st == 4 {
      var i := WaitBackwards(w, stuck, limit, ins[..n - 2]);
      var j := n - 4 - i;
      WaitsKept(w, stuck, limit, ins, n - 2, i, j);
      assert ins[i + 2 + j].reply;
    }
    if i: nat, j: nat :| j <= limit && n == i + 4 + j && Waits(w, stuck, limit, ins, i, j) && ins[i + 2 + j].reply {
      WaitForwards(w, stuck, limit, ins, i, j);
    }
  }

  /** A timeout: a run from reset enters ERROR exactly when it was IDLE, started, and then waited `limit + 1` edges
      without a reply. */
  lemma TimeoutExactly(w: nat, stuck: bool, limit: nat, ins: seq<Inputs>)
    requires limit < Pow2(w) && ins != []
    ensures (T.Exec(w, stuck, T.Reset(limit), ins).st == 5 &&
             T.Exec(w, stuck, T.Reset(limit), ins[..|ins| - 1]).st != 5) <==>
            |ins| >= limit + 3 && Waits(w, stuck, limit, ins, |ins| - limit - 3, limit + 1)
  {
    hide Pow2, T.Exec, T.Step, C.NextState, Waits;
    var n := |ins|;
    LastEdge(w, stuck, limit, ins);
    if T.Exec(w, stuck, T.Reset(limit), ins[..n - 1]).st == 2 {
      var i := WaitBackwards(w, stuck, limit, ins[..n - 1]);
      WaitsKept(w, stuck, limit, ins, n - 1, i, n - 3 - i);
      if !ins[n - 1].reply && n - 3 - i == limit {
        OneMoreWait(w, stuck, limit, ins, i, limit);
      }
    }
    if n >= limit + 3 && Waits(w, stuck, limit, ins, n - limit - 3, limit + 1) {
      OneMoreWait(w, stuck, limit, ins, n - limit - 3, limit);
      WaitForwards(w, stuck, limit, ins, n - limit - 3, limit);
    }
  }

  lemma OneMoreWait(w: nat, stuck: bool, limit: nat, ins: seq<Inputs>, i: nat, j: nat)
    requires i + 3 + j == |ins|
    ensures Waits(w, stuck, limit, ins, i, j + 1) <==> Waits(w, stuck, limit, ins, i, j) && !ins[|ins| - 1].reply
  {
  }

  /** Off WAIT the timer reads 0, but for the one edge after a timeout, when it reads what the last increment left. */
  lemma TimerRests(w: nat, stuck: bool, limit: nat, ins: seq<Inputs>)
    requires limit < Pow2(w)
    ensures var c := T.Exec(w, stuck, T.Reset(limit), ins);
            c.st != 2 && c.tmr != 0 ==>
              c.st == 5 && c.tmr == limit + 1 && ins != [] &&
              T.Exec(w, stuck, T.Reset(limit), ins[..|ins| - 1]) == T.Config(2, limit, limit)
  {
    hide Pow2;
    if ins != [] {
      T.RunsReach(w, stuck, limit, ins[..|ins| - 1]);
    }
  }

  // ---- transactions of the listing --------------------------------------------------------------------------------

  lemma {:induction false} InputsAt(run: seq<Env>, k: nat, i: nat)
    requires i <= k <= |run|
    ensures InputsUpTo(run, k)[..i] == InputsUpTo(run, i)
    ensures i < k ==> InputsUpTo(run, k)[i] == InputsOf(run[i])
    decreases k
  {
    if i < k {
      if i < k - 1 {
        InputsAt(run, k - 1, i);
      }
      assert InputsUpTo(run, k)[..i] == InputsUpTo(run, k - 1)[..i];
    }
    assert InputsUpTo(run, i)[..i] == InputsUpTo(run, i);
  }

  /** On the listing: the state is IDLE after `i` edges, starts there, and for `j` edges from the third on there is no
      acknowledgement. */
  ghost predicate NetWaits(run: seq<Env>, i: nat, j: nat) {
    && i + 2 + j < |run| && run[i](12) == 0 && run[i](4) != 0
    && forall k :: i + 2 <= k < i + 2 + j ==> run[k](5) == 0
  }

  lemma NetWaitsIs(ls: Listing, w: nat, stuck: bool, run: seq<Env>, limit: nat, k: nat, i: nat, j: nat)
    requires T.Benchmark(ls, w, stuck) && T.ResetRun(ls, run, limit) && i + 2 + j <= k < |run|
    ensures T.View(run[0]) == T.Reset(limit)
    ensures Waits(w, stuck, limit, InputsUpTo(run, k), i, j) <==> NetWaits(run, i, j)
  {
    hide T.Benchmark, Run, Initial, T.Exec;
    T.InitialIsReset(ls, w, stuck, run[0]);
    T.RunIsExec(ls, w, stuck, run, i);
    InputsAt(run, k, i);
    forall m | i + 2 <= m < i + 2 + j ensures InputsUpTo(run, k)[m].reply <==> run[m](5) != 0 {
      InputsAt(run, k, m);
    }
  }

  /** On every run of the listing from reset, a transaction completes exactly when it was started from IDLE and
      acknowledged after no more edges of waiting than the limit. */
  lemma NetDoneExactly(ls: Listing, w: nat, stuck: bool, run: seq<Env>, limit: nat, k: nat)
    requires T.Benchmark(ls, w, stuck) && T.ResetRun(ls, run, limit) && limit < Pow2(w) && k < |run|
    ensures run[k](12) == 4 <==>
            exists i: nat, j: nat :: j <= limit && k == i + 4 + j && NetWaits(run, i, j) && run[i + 2 + j](5) != 0
  {
    hide T.Benchmark, T.Exec, Waits, NetWaits, Pow2, Run, Initial;
    var ins := InputsUpTo(run, k);
    assert T.View(run[0]) == T.Reset(limit) by { T.InitialIsReset(ls, w, stuck, run[0]); }
    T.RunIsExec(ls, w, stuck, run, k);
    DoneExactly(w, stuck, limit, ins);
    forall i: nat, j: nat | j <= limit && k == i + 4 + j
      ensures Waits(w, stuck, limit, ins, i, j) <==> NetWaits(run, i, j)
      ensures ins[i + 2 + j].reply <==> run[i + 2 + j](5) != 0
    {
      NetWaitsIs(ls, w, stuck, run, limit, k, i, j);
      InputsAt(run, k, i + 2 + j);
    }
  }
}
