/**
 The requester/granter handshake (`gen_exact_fsm_pair` of `scripts/profile_cases.py`): safety, exact
 timing and recoverability over every run, at every width and limit, of the machines and of the
 listing the generator emits.
 */
module HandshakePair {
  import opened Arith
  import opened Btor
  import opened FsmParts
  import opened PairCircuit

  datatype Config = Config(r: nat, g: nat, tr: nat, tg: nat, limit: nat) {
    predicate Fits(w: nat) {
      r < 8 && g < 8 && tr < Pow2(w) && tg < Pow2(w) && limit < Pow2(w)
    }

    predicate Requests() { r == 1 || r == 2 }

    predicate Grants() { g == 2 || g == 3 }
  }

  /** One clock edge: each machine reads the other's current state. */
  function Step(w: nat, c: Config, i: Inputs): Config {
    Config(NextReq(c.r, c.Grants(), c.tr == c.limit, i.start, i.reply, i.clr),
           NextGnt(c.g, c.Requests(), c.tg == c.limit, i.clr),
           if c.r == 2 && !c.Grants() then Inc(w, c.tr) else 0,
           if c.g == 3 && c.Requests() then Inc(w, c.tg) else 0,
           c.limit)
  }

  function Exec(w: nat, c: Config, ins: seq<Inputs>): Config {
    if ins == [] then c else Step(w, Exec(w, c, ins[..|ins| - 1]), ins[|ins| - 1])
  }

  function Reset(limit: nat): Config { Config(0, 0, 0, 0, limit) }

  lemma {:induction false} ExecAppend(w: nat, c: Config, a: seq<Inputs>, b: seq<Inputs>)
    ensures Exec(w, c, a + b) == Exec(w, Exec(w, c, a), b)
  {
    if b == [] {
      assert a + b == a;
    } else {
      ExecAppend(w, c, a, b[..|b| - 1]);
      assert (a + b)[..|a + b| - 1] == a + b[..|b| - 1];
    }
  }

  // ---- safety and timing -----------------------------------------------------------------------------

  /** The states of the pair when no timer can fire: the handshake, step by step. */
  predicate InHandshake(c: Config) {
    && c.tg == 0
    && (c.tr == if c.r == 2 && c.g == 2 then 1 else 0)
    && match c.r
       case 0 => c.g == 0
       case 1 => c.g == 0
       case 2 => c.g == 1 || c.g == 2
       case 3 => c.g == 0 || c.g == 3 || c.g == 4
       case 4 => c.g == 0 || c.g == 4
       case _ => false
  }

  lemma {:induction false} RunsStayInHandshake(w: nat, limit: nat, ins: seq<Inputs>)
    requires w >= 1 && limit >= 1
    ensures InHandshake(Exec(w, Reset(limit), ins)) && Exec(w, Reset(limit), ins).limit == limit
  {
    if ins != [] {
      RunsStayInHandshake(w, limit, ins[..|ins| - 1]);
    }
  }

  /** Every request is granted on time: whatever the inputs, REQ is followed by WAIT, WAIT and, exactly
      three edges after it, USE. */
  lemma RequestServed(w: nat, limit: nat, ins: seq<Inputs>, a: Inputs, b: Inputs, d: Inputs)
    requires w >= 1 && limit >= 1 && Exec(w, Reset(limit), ins).r == 1
    ensures var c := Exec(w, Reset(limit), ins);
            Exec(w, c, [a]).r == 2 && Exec(w, c, [a, b]).r == 2 && Exec(w, c, [a, b, d]).r == 3
  {
    RunsStayInHandshake(w, limit, ins);
    var c := Exec(w, Reset(limit), ins);
    assert [a][..0] == [] && [a, b][..1] == [a] && [a, b, d][..2] == [a, b];
    assert c == Config(1, 0, 0, 0, limit);
    assert Exec(w, c, [a]) == Config(2, 1, 0, 0, limit);
    assert Exec(w, c, [a, b]) == Config(2, 2, 1, 0, limit);
  }

  const CLEAR := Inputs(false, false, true)

  /** With the limit at 0: the first request times out and is cleared, a second starts while the grant
      is being withdrawn, and a third meets the granter already BUSY. */
  const BAD_INPUTS := [START, QUIET, QUIET, CLEAR, START, QUIET, QUIET, CLEAR, START, QUIET]

  lemma BadRun(w: nat)
    requires w >= 1
    ensures Exec(w, Reset(0), BAD_INPUTS[..3]).r == 5 && Exec(w, Reset(0), BAD_INPUTS).g == 5
  {
    var ins := BAD_INPUTS;
    forall n | 0 <= n < 10 ensures Exec(w, Reset(0), ins[..n + 1]) == Step(w, Exec(w, Reset(0), ins[..n]), ins[n]) {
      assert ins[..n + 1][..n] == ins[..n];
    }
    assert Exec(w, Reset(0), ins[..0]) == Reset(0);
    assert Exec(w, Reset(0), ins[..0 + 1]) == Config(1, 0, 0, 0, 0);
    assert Exec(w, Reset(0), ins[..1 + 1]) == Config(2, 1, 0, 0, 0);
    assert Exec(w, Reset(0), ins[..2 + 1]) == Config(5, 2, 1, 0, 0);
    assert Exec(w, Reset(0), ins[..3 + 1]) == Config(0, 3, 0, 0, 0);
    assert Exec(w, Reset(0), ins[..4 + 1]) == Config(1, 4, 0, 0, 0);
    assert Exec(w, Reset(0), ins[..5 + 1]) == Config(2, 0, 0, 0, 0);
    assert Exec(w, Reset(0), ins[..6 + 1]) == Config(5, 1, 1, 0, 0);
    assert Exec(w, Reset(0), ins[..7 + 1]) == Config(0, 2, 0, 0, 0);
    assert Exec(w, Reset(0), ins[..8 + 1]) == Config(1, 3, 0, 0, 0);
    assert Exec(w, Reset(0), ins[..9 + 1]) == Config(2, 5, 0, 1, 0);
    assert ins[..9 + 1] == ins;
  }

  /** Either machine reaches ERR on some run from reset exactly when the held limit is 0. */
  lemma ErrorsExactlyAtZero(w: nat, limit: nat)
    requires w >= 1
    ensures (exists ins :: Exec(w, Reset(limit), ins).r == 5) <==> limit == 0
    ensures (exists ins :: Exec(w, Reset(limit), ins).g == 5) <==> limit == 0
  {
    if limit == 0 {
      BadRun(w);
    } else {
      forall ins: seq<Inputs> ensures Exec(w, Reset(limit), ins).r != 5 && Exec(w, Reset(limit), ins).g != 5 {
        RunsStayInHandshake(w, limit, ins);
      }
    }
  }

  // ---- recoverability --------------------------------------------------------------------------------

  /** The edges until the requester's timer meets the limit, counting through the wrap. */
  function Gap(w: nat, c: Config): nat
    requires c.Fits(w)
  {
    if c.tr <= c.limit then c.limit - c.tr else c.limit + Pow2(w) - c.tr
  }

  function Rank(w: nat, c: Config): nat
    requires c.Fits(w)
  {
    if c.r == 0 then 0
    else if c.r == 1 then 4 + c.limit
    else if c.r == 2 then 3 + Gap(w, c)
    else if c.r == 3 then 2
    else 1
  }

  /** From every state of the whole state space, including illegal codes and timers above the limit,
      the requester can be brought back to IDLE, within a bound read off the state. */
  lemma {:induction false} Recoverable(w: nat, c: Config) returns (ins: seq<Inputs>)
    requires c.Fits(w)
    ensures Exec(w, c, ins).r == 0 && |ins| <= Rank(w, c)
    decreases Rank(w, c)
  {
    if c.r == 0 {
      ins := [];
    } else {
      var c' := Step(w, c, ALL_ON);
      var rest := Recoverable(w, c');
      ins := [ALL_ON] + rest;
      ExecAppend(w, c, [ALL_ON], rest);
      assert [ALL_ON][..0] == [];
    }
  }

  // ---- the emitted listing ---------------------------------------------------------------------------

  ghost predicate Benchmark(ls: Listing, w: nat) {
    WellFormed(ls) && Pair(ls, w)
  }

  function View(env: Env): Config { Config(env(12), env(14), env(16), env(18), env(7)) }

  /** Refinement: one clock edge of the emitted listing is one step of the pair. */
  lemma EdgeIsStep(ls: Listing, w: nat, env: Env, env': Env)
    requires Benchmark(ls, w) && Edge(ls, env, env')
    ensures View(env') == Step(w, View(env), InputsOf(env))
  {
    hide Val, LineOk, WellFormed, Valuation, Registers, Decoders, Signals, ReqArms, GntArms, FsmParts.Selects;
    RequesterVal(ls, env, w);
    GranterVal(ls, env, w);
    TimerVals(ls, env, w);
    LeafVal(ls, env, 7);
    assert ls[54] == Next(2, 12, 54) && ls[65] == Next(2, 14, 65);
    assert ls[69] == Next(3, 16, 69) && ls[73] == Next(3, 18, 73) && ls[7] == Next(3, 7, 7);
  }

  lemma InitialIsReset(ls: Listing, w: nat, env: Env)
    requires Benchmark(ls, w) && Initial(ls, env)
    ensures View(env) == Reset(env(7)) && View(env).Fits(w)
  {
    hide Val, Decoders, Signals, ReqArms, GntArms, Selections, Timers, LineOk;
    LeafVals(ls, env, w);
    LeafVal(ls, env, 9);
    LeafVal(ls, env, 10);
    assert ls[12] == Init(2, 12, 9) && ls[14] == Init(2, 14, 9) && ls[16] == Init(3, 16, 10)
        && ls[18] == Init(3, 18, 10);
  }

  /** Every run of the listing is a run of the pair. */
  lemma {:induction false} RunIsExec(ls: Listing, w: nat, run: seq<Env>, k: nat)
    requires Benchmark(ls, w) && Run(ls, run) && k < |run|
    ensures View(run[k]) == Exec(w, View(run[0]), InputsUpTo(run, k))
  {
    hide Benchmark;
    if k > 0 {
      RunIsExec(ls, w, run, k - 1);
      assert Edge(ls, run[k - 1], run[k - 1 + 1]);
      EdgeIsStep(ls, w, run[k - 1], run[k]);
      assert InputsUpTo(run, k)[..k - 1] == InputsUpTo(run, k - 1);
    }
  }

  /** Any configuration as the values of the listing's states. */
  function EnvOf(c: Config): Env { id => ValueOf(c, id) }

  function ValueOf(c: Config, id: int): nat {
    if id == 12 then c.r else if id == 14 then c.g else if id == 16 then c.tr else if id == 18 then c.tg
    else if id == 7 then c.limit else 0
  }

  /** Only the lines the header and the registers declare are states or inputs. */
  lemma StateLines(ls: Listing, w: nat, i: nat)
    requires Pair(ls, w) && i < |ls| && (ls[i].State? || ls[i].Input?)
    ensures i in {3, 4, 5, 6, 11, 13, 15, 17}
  {
    hide Header, Registers, Decoders, Signals, ReqArms, GntArms, Selections, Timers;
    if i < 8 {
      assert i in {3, 4, 5, 6} by { HeaderLines(ls, w, i); }
    } else if i < 19 {
      RegisterLines(ls, i);
    } else {
      OtherLines(ls, w, i);
    }
  }

  lemma HeaderLines(ls: Listing, w: nat, i: nat)
    requires Header(ls, w) && i < 8 <= |ls| && (ls[i].State? || ls[i].Input?)
    ensures i in {3, 4, 5, 6}
  {
  }

  lemma RegisterLines(ls: Listing, i: nat)
    requires Registers(ls) && 8 <= i < 19 <= |ls| && (ls[i].State? || ls[i].Input?)
    ensures i in {11, 13, 15, 17}
  {
  }

  lemma OtherLines(ls: Listing, w: nat, i: nat)
    requires Pair(ls, w) && 19 <= i < |ls|
    ensures !ls[i].State? && !ls[i].Input? && !ls[i].Init?
  {
    hide Header, Registers, Decoders, Signals, ReqArms, GntArms, Selections, Timers;
    if i < 43 {
      FrontLines(ls, i);
    } else if i < 66 {
      MiddleLines(ls, i);
    } else {
      TimerTail(ls, i);
    }
  }

  lemma FrontLines(ls: Listing, i: nat)
    requires Decoders(ls) && Signals(ls) && 19 <= i < 43 && i < |ls|
    ensures !ls[i].State? && !ls[i].Input? && !ls[i].Init?
  {
  }

  lemma MiddleLines(ls: Listing, i: nat)
    requires ReqArms(ls) && GntArms(ls) && Selections(ls) && 43 <= i < 66 && i < |ls|
    ensures !ls[i].State? && !ls[i].Input? && !ls[i].Init?
  {
    if 48 <= i < 54 {
      hide ReqArms, GntArms;
      assert ls[i] == SelectLine(48, 2, 25, REQ_ARMS, 20, i);
    } else if 59 <= i < 65 {
      hide ReqArms, GntArms;
      assert ls[i] == SelectLine(59, 2, 31, GNT_ARMS, 20, i);
    }
  }

  lemma TimerTail(ls: Listing, i: nat)
    requires Timers(ls) && 66 <= i < 74 && i < |ls|
    ensures !ls[i].State? && !ls[i].Input? && !ls[i].Init?
  {
  }

  lemma EnvOfFits(ls: Listing, w: nat, c: Config)
    requires Benchmark(ls, w) && c.Fits(w)
    ensures Drivable(ls, EnvOf(c)) && forall i :: View(With(EnvOf(c), i)) == c
  {
    hide Benchmark, Valuation, WellFormed, Pow2;
    InputLines(ls, w);
    forall i ensures Valuation(ls, With(EnvOf(c), i)) {
      InputsFit(ls, w, c, i);
    }
  }

  lemma InputsFit(ls: Listing, w: nat, c: Config, i: Inputs)
    requires Benchmark(ls, w) && c.Fits(w)
    ensures Valuation(ls, With(EnvOf(c), i))
  {
    hide Decoders, Signals, ReqArms, GntArms, Selections, Timers, WellFormed, Registers, Header, With, EnvOf, Pow2;
    forall j | 0 <= j < |ls| && (ls[j].State? || ls[j].Input?)
      ensures With(EnvOf(c), i)(j + 1) < Pow2(SortWidth(ls, ls[j].sort))
    {
      StateLines(ls, w, j);
      ValueFits(ls, w, c, i, j);
    }
  }

  lemma ValueFits(ls: Listing, w: nat, c: Config, i: Inputs, j: nat)
    requires Header(ls, w) && Registers(ls) && c.Fits(w) && j in {3, 4, 5, 6, 11, 13, 15, 17}
    ensures With(EnvOf(c), i)(j + 1) < Pow2(SortWidth(ls, ls[j].sort))
  {
    SlotSorts(ls, w, j);
    hide Header, Registers, SortWidth;
    SlotValue(w, c, i, j);
  }

  lemma SlotValue(w: nat, c: Config, i: Inputs, j: nat)
    requires c.Fits(w) && j in {3, 4, 5, 6, 11, 13, 15, 17}
    ensures With(EnvOf(c), i)(j + 1) < Pow2(if j in {3, 4, 5} then 1 else if j in {11, 13} then 3 else w)
  {
    assert With(EnvOf(c), i)(j + 1) == InputOr(EnvOf(c), i, j + 1) && EnvOf(c)(j + 1) == ValueOf(c, j + 1);
    assert Pow2(1) == 2 && Pow2(3) == 8;
    hide Pow2, With, EnvOf;
  }

  lemma SlotSorts(ls: Listing, w: nat, j: nat)
    requires Header(ls, w) && Registers(ls) && j in {3, 4, 5, 6, 11, 13, 15, 17}
    ensures ls[j].State? || ls[j].Input?
    ensures SortWidth(ls, ls[j].sort) == if j in {3, 4, 5} then 1 else if j in {11, 13} then 3 else w
  {
  }

  lemma InputLines(ls: Listing, w: nat)
    requires Benchmark(ls, w)
    ensures WellFormed(ls) && |ls| >= 6 && ls[3].Input? && ls[4].Input? && ls[5].Input?
  {
    hide Registers, Decoders, Signals, ReqArms, GntArms, Selections, Timers, WellFormed;
  }

  /** Only the registers have initial values. */
  lemma InitLines(ls: Listing, w: nat, i: nat)
    requires Pair(ls, w) && i < |ls| && ls[i].Init?
    ensures i in {12, 14, 16, 18}
  {
    hide Header, Registers, Decoders, Signals, ReqArms, GntArms, Selections, Timers;
    if i < 19 {
      FrontInits(ls, w, i);
    } else {
      OtherLines(ls, w, i);
    }
  }

  lemma FrontInits(ls: Listing, w: nat, i: nat)
    requires Header(ls, w) && Registers(ls) && i < 19 <= |ls| && ls[i].Init?
    ensures i in {12, 14, 16, 18}
  {
    if i < 8 { hide Registers; } else { hide Header; }
  }

  lemma ResetIsInitial(ls: Listing, w: nat, env: Env)
    requires Benchmark(ls, w) && Valuation(ls, env) && env(12) == 0 && env(14) == 0 && env(16) == 0 && env(18) == 0
    ensures Initial(ls, env)
  {
    hide Val, Header, Registers, Decoders, Signals, ReqArms, GntArms, Selections, Timers, WellFormed, LineOk, Valuation;
    InitsRead(ls, env);
    forall i | 0 <= i < |ls| && ls[i].Init? ensures env(ls[i].state) == Val(ls, env, ls[i].value) {
      InitLines(ls, w, i);
    }
  }

  lemma InitsRead(ls: Listing, env: Env)
    requires WellFormed(ls) && Registers(ls) && |ls| >= 19
    ensures ls[12] == Init(2, 12, 9) && ls[14] == Init(2, 14, 9) && ls[16] == Init(3, 16, 10)
            && ls[18] == Init(3, 18, 10)
    ensures Val(ls, env, 9) == 0 && Val(ls, env, 10) == 0
  {
    hide Val, WellFormed, LineOk;
    LeafVal(ls, env, 9);
    LeafVal(ls, env, 10);
  }

  /** Every run of the pair is a run of the listing. */
  lemma ExecIsRun(ls: Listing, w: nat, c: Config, ins: seq<Inputs>) returns (run: seq<Env>)
    requires Benchmark(ls, w) && c.Fits(w)
    ensures Run(ls, run) && |run| == |ins| + 1 && View(run[0]) == c
    ensures View(run[|ins|]) == Exec(w, c, ins)
    ensures c == Reset(c.limit) ==> Initial(ls, run[0])
  {
    hide Benchmark, Valuation, Initial, EnvOf, With, Drivable, Run;
    EnvOfFits(ls, w, c);
    run := DriveRun(ls, EnvOf(c), ins);
    RunIsExec(ls, w, run, |ins|);
    if c == Reset(c.limit) {
      RunStarts(ls, run);
      ResetIsInitial(ls, w, run[0]);
    }
  }

  /** Safety of the listing, at every width and every held limit of at least 1. */
  lemma NetSafe(ls: Listing, w: nat, run: seq<Env>, k: nat)
    requires Benchmark(ls, w) && w >= 1 && Run(ls, run) && Initial(ls, run[0]) && k < |run|
    requires View(run[0]).limit >= 1
    ensures InHandshake(View(run[k])) && View(run[k]).r != 5 && View(run[k]).g != 5
    ensures View(run[k]).r == 1 && k + 3 < |run| ==> View(run[k + 3]).r == 3
  {
    hide Benchmark, Initial;
    InitialIsReset(ls, w, run[0]);
    RunIsExec(ls, w, run, k);
    RunsStayInHandshake(w, View(run[0]).limit, InputsUpTo(run, k));
    if View(run[k]).r == 1 && k + 3 < |run| {
      RunIsExec(ls, w, run, k + 3);
      var ins := InputsUpTo(run, k);
      var a, b, d := InputsOf(run[k]), InputsOf(run[k + 1]), InputsOf(run[k + 2]);
      RequestServed(w, View(run[0]).limit, ins, a, b, d);
      assert InputsUpTo(run, k + 3) == ins + [a, b, d] by {
        assert InputsUpTo(run, k + 1) == ins + [a];
        assert InputsUpTo(run, k + 2) == ins + [a, b];
      }
      ExecAppend(w, View(run[0]), ins, [a, b, d]);
    }
  }

  /** A run of the listing from reset, with the limit held at `limit`. */
  ghost predicate ResetRun(ls: Listing, run: seq<Env>, limit: nat) {
    run != [] && Run(ls, run) && Initial(ls, run[0]) && View(run[0]).limit == limit
  }

  /** On the listing: a run from reset ends with the requester, or with the granter, in ERR if and only if the limit
      is 0. */
  lemma NetErrorsExactlyAtZero(ls: Listing, w: nat, limit: nat)
    requires Benchmark(ls, w) && w >= 1 && limit < Pow2(w)
    ensures (exists run :: ResetRun(ls, run, limit) && View(run[|run| - 1]).r == 5) <==> limit == 0
    ensures (exists run :: ResetRun(ls, run, limit) && View(run[|run| - 1]).g == 5) <==> limit == 0
  {
    hide Benchmark, Initial, Run, Exec, InHandshake;
    if limit == 0 {
      BadRun(w);
      var a := ExecIsRun(ls, w, Reset(0), BAD_INPUTS[..3]);
      var b := ExecIsRun(ls, w, Reset(0), BAD_INPUTS);
      assert ResetRun(ls, a, limit) && View(a[|a| - 1]).r == 5;
      assert ResetRun(ls, b, limit) && View(b[|b| - 1]).g == 5;
    } else {
      forall run | ResetRun(ls, run, limit) ensures View(run[|run| - 1]).r != 5 && View(run[|run| - 1]).g != 5 {
        NetSafe(ls, w, run, |run| - 1);
      }
    }
  }

  /** HOLDS at every width: from every state of the listing's whole state space, requester IDLE is
      reachable. */
  lemma NetRecoverable(ls: Listing, w: nat, c: Config)
    requires Benchmark(ls, w) && c.Fits(w)
    ensures exists run :: Run(ls, run) && View(run[0]) == c && View(run[|run| - 1]).r == 0
  {
    hide Benchmark;
    var ins := Recoverable(w, c);
    var run := ExecIsRun(ls, w, c, ins);
  }
}
