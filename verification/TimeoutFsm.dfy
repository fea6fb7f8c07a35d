/**
 The timeout benchmark (`gen_exact_fsm_timeout` of `scripts/profile_cases.py`): what the generator
 claims at every width, proved of the listing it emits.
 */
module TimeoutFsm {
  import opened Arith
  import opened Btor
  import opened FsmParts
  import opened TimeoutCircuit

  const TIMEOUT_PORTS := Ports(1, 2, 3, 4, 5, 6, 7)

  /** The three sorts, the three inputs and the held, free-initialised limit. */
  predicate Header(ls: Listing, w: nat) {
    && w >= 1
    && At(ls, 1, Sort(1)) && At(ls, 2, Sort(3)) && At(ls, 3, Sort(w))
    && At(ls, 4, Input(1, "start")) && At(ls, 5, Input(1, "ack")) && At(ls, 6, Input(1, "clr"))
    && At(ls, 7, State(3, "limit")) && At(ls, 8, Next(3, 7, 7))
  }

  /** The listing is the benchmark of width `w`. */
  ghost predicate Benchmark(ls: Listing, w: nat, stuck: bool) {
    && WellFormed(ls) && Header(ls, w)
    && PortsOk(ls, 8, TIMEOUT_PORTS, w) && Circuit(ls, 8, TIMEOUT_PORTS, "fsm", stuck, false)
  }

  method Generate(w: nat, stuck: bool) returns (ls: Listing)
    requires w >= 1
    ensures Benchmark(ls, w, stuck)
  {
    var b := new Emitter();
    var s1 := b.N(Sort(1));
    var s3 := b.N(Sort(3));
    var sw := b.N(Sort(w));
    var start := b.N(Input(s1, "start"));
    var ack := b.N(Input(s1, "ack"));
    var clr := b.N(Input(s1, "clr"));
    var limit := b.N(State(sw, "limit"));
    var _ := b.N(Next(sw, limit, limit));
    ghost var header := b.lines;
    HeaderOk(header, w);
    var _, _ := EmitCircuit(b, Ports(s1, s3, sw, start, ack, clr, limit), "fsm", stuck, false);
    ls := b.lines;
    PortsKept(header, ls, w);
    CircuitOk(header, ls, TIMEOUT_PORTS, w, "fsm", stuck, false);
  }

  lemma HeaderOk(ls: Listing, w: nat)
    requires |ls| == 8 && Header(ls, w)
    ensures WellFormed(ls) && PortsOk(ls, 8, TIMEOUT_PORTS, w)
  {
  }

  lemma PortsKept(ls: Listing, ls': Listing, w: nat)
    requires ls <= ls' && PortsOk(ls, 8, TIMEOUT_PORTS, w) && Header(ls, w)
    ensures PortsOk(ls', 8, TIMEOUT_PORTS, w) && Header(ls', w)
  {
    OperandKept(ls, ls');
  }

  // ---- the machine ---------------------------------------------------------------------------------

  datatype Config = Config(st: nat, tmr: nat, limit: nat) {
    predicate Fits(w: nat) { st < 8 && tmr < Pow2(w) && limit < Pow2(w) }
  }

  function Step(w: nat, stuck: bool, c: Config, i: Inputs): Config {
    Config(NextState(stuck, false, c.st, c.tmr == c.limit, i.start, i.reply, i.clr),
        NextTimer(w, c.st, c.tmr, i.reply), c.limit)
  }

  /** The configuration after the edges driven by `ins`. */
  function Exec(w: nat, stuck: bool, c: Config, ins: seq<Inputs>): Config {
    if ins == [] then c else Step(w, stuck, Exec(w, stuck, c, ins[..|ins| - 1]), ins[|ins| - 1])
  }

  function View(env: Env): Config { Config(env(12), env(14), env(7)) }

  /** Refinement: one clock edge of the emitted listing is one step of the machine. */
  lemma EdgeIsStep(ls: Listing, w: nat, stuck: bool, env: Env, env': Env)
    requires Benchmark(ls, w, stuck) && Edge(ls, env, env')
    ensures View(env') == Step(w, stuck, View(env), InputsOf(env))
    ensures View(env).Fits(w)
  {
    hide Val, Valuation, Head, Arms, Selects, PortsOk;
    var z := IdleBase(8, stuck, false) + 1;
    StateVal(ls, env, 8, TIMEOUT_PORTS, w, "fsm", stuck, false);
    TimerVal(ls, env, 8, TIMEOUT_PORTS, w, "fsm", stuck, false);
    LeafVal(ls, env, 4);
    LeafVal(ls, env, 5);
    LeafVal(ls, env, 6);
    LeafVal(ls, env, 7);
    assert ls[z + 6] == Next(2, 12, z + 6) && ls[z + 10] == Next(3, 14, z + 10) && ls[7] == Next(3, 7, 7);
    ViewFits(ls, w, stuck, env);
  }

  lemma ViewFits(ls: Listing, w: nat, stuck: bool, env: Env)
    requires Benchmark(ls, w, stuck) && Valuation(ls, env)
    ensures View(env).Fits(w)
  {
    hide Circuit, PortsOk, WellFormed;
    OtherLines(ls, w, stuck);
    assert SortWidth(ls, 2) == 3 && SortWidth(ls, 3) == w && ls[6] == State(3, "limit");
    hide Header, Benchmark;
    assert Pow2(3) == 8;
  }

  /** A reset valuation is IDLE with the timer at 0; the limit is free. */
  lemma InitialIsReset(ls: Listing, w: nat, stuck: bool, env: Env)
    requires Benchmark(ls, w, stuck) && Initial(ls, env)
    ensures View(env) == Config(0, 0, env(7))
  {
    hide Val, Valuation, LineOk, WellFormed, Header, PortsOk, Arms, Tail, Codes, Compares, IdleBase;
    assert ls[12] == Init(2, 12, 9) && ls[14] == Init(3, 14, 10);
    assert ls[8] == Const(2, Zero) && ls[9] == Const(3, Zero);
    hide Circuit, Head;
    LeafVal(ls, env, 9);
    LeafVal(ls, env, 10);
  }

  // ---- what every run of the machine keeps ---------------------------------------------------------

  function Reset(limit: nat): Config { Config(0, 0, limit) }

  /** What a run of `n` edges from reset can have reached. */
  predicate Reached(w: nat, limit: nat, n: nat, c: Config) {
    && c.limit == limit
    && (c.st == 1 ==> n >= 1)
    && (c.st == 2 ==> c.tmr <= limit && n >= c.tmr + 2)
    && (c.st == 5 ==> n >= limit + 3)
    && c.st <= 5
  }

  lemma {:induction false} RunsReach(w: nat, stuck: bool, limit: nat, ins: seq<Inputs>)
    requires limit < Pow2(w)
    ensures Reached(w, limit, |ins|, Exec(w, stuck, Reset(limit), ins))
  {
    if ins != [] {
      RunsReach(w, stuck, limit, ins[..|ins| - 1]);
    }
  }

  /** On every run the timer is at most the limit in WAIT, and an edge that stays in WAIT adds one to
      it without wrapping. */
  lemma WaitNeverOverruns(w: nat, stuck: bool, limit: nat, ins: seq<Inputs>, i: Inputs)
    requires limit < Pow2(w)
    ensures var c := Exec(w, stuck, Reset(limit), ins);
            c.st == 2 ==> c.tmr <= limit && (Step(w, stuck, c, i).st == 2 ==> Step(w, stuck, c, i).tmr == c.tmr + 1)
  {
    RunsReach(w, stuck, limit, ins);
  }

  /** The increment wraps on exactly one kind of edge: the timeout itself, when the limit is all ones. */
  lemma WrapExactly(w: nat, stuck: bool, limit: nat, ins: seq<Inputs>, i: Inputs)
    requires limit < Pow2(w)
    ensures var c := Exec(w, stuck, Reset(limit), ins);
            c.st == 2 && !i.reply ==>
              (Step(w, stuck, c, i).tmr != c.tmr + 1 <==> limit == Pow2(w) - 1 && c.tmr == limit)
  {
    RunsReach(w, stuck, limit, ins);
  }

  /** The stuck twin's ERROR is absorbing. */
  lemma {:induction false} StuckForever(w: nat, c: Config, ins: seq<Inputs>)
    requires c.st == 5
    ensures Exec(w, true, c, ins).st == 5
  {
    if ins != [] {
      StuckForever(w, c, ins[..|ins| - 1]);
    }
  }

  // ---- when ERROR is reached -----------------------------------------------------------------------

  /** `n` edges without any input. */
  function Quiet(n: nat): seq<Inputs> { seq(n, _ => QUIET) }

  lemma {:induction false} ExecAppend(w: nat, stuck: bool, c: Config, a: seq<Inputs>, b: seq<Inputs>)
    ensures Exec(w, stuck, c, a + b) == Exec(w, stuck, Exec(w, stuck, c, a), b)
  {
    if b == [] {
      assert a + b == a;
    } else {
      ExecAppend(w, stuck, c, a, b[..|b| - 1]);
      assert (a + b)[..|a + b| - 1] == a + b[..|b| - 1];
    }
  }

  lemma {:induction false} QuietIdle(w: nat, stuck: bool, limit: nat, n: nat)
    ensures Exec(w, stuck, Reset(limit), Quiet(n)) == Reset(limit)
  {
    if n > 0 {
      QuietIdle(w, stuck, limit, n - 1);
      assert Quiet(n)[..n - 1] == Quiet(n - 1);
    }
  }

  lemma {:induction false} QuietWait(w: nat, stuck: bool, c: Config, n: nat)
    requires c.st == 2 && c.tmr + n <= c.limit < Pow2(w)
    ensures Exec(w, stuck, c, Quiet(n)) == c.(tmr := c.tmr + n)
  {
    if n > 0 {
      QuietWait(w, stuck, c, n - 1);
      assert Quiet(n)[..n - 1] == Quiet(n - 1);
    }
  }

  /** Waiting without an acknowledgement for `limit + 1` edges after the request. */
  function TimeoutRun(idle: nat, limit: nat): (ins: seq<Inputs>)
    ensures |ins| == idle + limit + 3
  {
    Quiet(idle) + [START, QUIET] + Quiet(limit) + [QUIET]
  }

  /** Just before it, the machine waits with its timer at the limit. */
  lemma TimeoutWaits(w: nat, stuck: bool, idle: nat, limit: nat)
    requires limit < Pow2(w)
    ensures Exec(w, stuck, Reset(limit), TimeoutRun(idle, limit)[..idle + limit + 2]) == Config(2, limit, limit)
  {
    var a := Quiet(idle) + [START, QUIET];
    var b := a + Quiet(limit);
    QuietIdle(w, stuck, limit, idle);
    ExecAppend(w, stuck, Reset(limit), Quiet(idle), [START, QUIET]);
    assert [START, QUIET][..1] == [START] && [START][..0] == [];
    assert Exec(w, stuck, Reset(limit), [START]) == Config(1, 0, limit);
    ExecAppend(w, stuck, Reset(limit), a, Quiet(limit));
    QuietWait(w, stuck, Config(2, 0, limit), limit);
    assert TimeoutRun(idle, limit)[..idle + limit + 2] == b;
  }

  lemma TimeoutRunFails(w: nat, stuck: bool, idle: nat, limit: nat)
    requires limit < Pow2(w)
    ensures Exec(w, stuck, Reset(limit), TimeoutRun(idle, limit)).st == 5
  {
    TimeoutWaits(w, stuck, idle, limit);
    var ins := TimeoutRun(idle, limit);
    assert ins[..|ins| - 1] == ins[..idle + limit + 2] && ins[|ins| - 1] == QUIET;
  }

  /** The edge after `ins` counts in WAIT and wraps the timer. */
  predicate WrapsAfter(w: nat, stuck: bool, limit: nat, ins: seq<Inputs>, i: Inputs) {
    var c := Exec(w, stuck, Reset(limit), ins);
    c.st == 2 && !i.reply && Step(w, stuck, c, i).tmr != c.tmr + 1
  }

  /** Some run from reset wraps the timer if and only if the limit is all ones. */
  lemma WrapHappens(w: nat, stuck: bool, limit: nat)
    requires limit < Pow2(w)
    ensures (exists ins, i :: WrapsAfter(w, stuck, limit, ins, i)) <==> limit == Pow2(w) - 1
  {
    var ins := TimeoutRun(0, limit)[..limit + 2];
    TimeoutWaits(w, stuck, 0, limit);
    WrapExactly(w, stuck, limit, ins, QUIET);
    assert limit == Pow2(w) - 1 ==> WrapsAfter(w, stuck, limit, ins, QUIET);
    forall ins, i | WrapsAfter(w, stuck, limit, ins, i) ensures limit == Pow2(w) - 1 {
      WrapExactly(w, stuck, limit, ins, i);
    }
  }

  /** ERROR is reachable in exactly `n` edges from reset iff `n >= limit + 3`: the first timeout is at
      edge `limit + 3`, at every width. */
  lemma ErrorDepth(w: nat, stuck: bool, limit: nat, n: nat)
    requires limit < Pow2(w)
    ensures (exists ins :: |ins| == n && Exec(w, stuck, Reset(limit), ins).st == 5) <==> n >= limit + 3
  {
    if n >= limit + 3 {
      TimeoutRunFails(w, stuck, n - limit - 3, limit);
      assert |TimeoutRun(n - limit - 3, limit)| == n;
    }
    forall ins: seq<Inputs> | |ins| == n && Exec(w, stuck, Reset(limit), ins).st == 5 ensures n >= limit + 3 {
      RunsReach(w, stuck, limit, ins);
    }
  }

  // ---- recoverability ------------------------------------------------------------------------------

  /** With ERROR clearable, IDLE is at most four edges away from every state, illegal codes included. */
  lemma Recoverable(w: nat, c: Config)
    ensures exists ins :: |ins| <= 4 && Exec(w, false, c, ins).st == 0
  {
    RecoverIn(w, c);
    assert |seq(Distance(c.st), _ => ALL_ON)| <= 4;
  }

  /** How many edges IDLE is away when every input is on. */
  function Distance(st: nat): nat {
    if st == 0 then 0 else if st <= 3 then 5 - st else 1
  }

  lemma {:induction false} RecoverIn(w: nat, c: Config)
    ensures Exec(w, false, c, seq(Distance(c.st), _ => ALL_ON)).st == 0
    decreases Distance(c.st)
  {
    var n := Distance(c.st);
    if n > 0 {
      RecoverIn(w, Step(w, false, c, ALL_ON));
      ExecAppend(w, false, c, [ALL_ON], seq(n - 1, _ => ALL_ON));
      assert [ALL_ON] + seq(n - 1, _ => ALL_ON) == seq(n, _ => ALL_ON);
      assert [ALL_ON][..0] == [];
    }
  }

  // ---- the same, of the emitted listing --------------------------------------------------------------

  /** Any configuration as the values of the listing's states. */
  function EnvOf(c: Config): Env { id => ValueOf(c, id) }

  function ValueOf(c: Config, id: int): nat {
    if id == 12 then c.st else if id == 14 then c.tmr else if id == 7 then c.limit else 0
  }

  lemma EnvOfFits(ls: Listing, w: nat, stuck: bool, c: Config)
    requires Benchmark(ls, w, stuck) && c.Fits(w)
    ensures Drivable(ls, EnvOf(c)) && forall i :: View(With(EnvOf(c), i)) == c
  {
    hide Circuit, PortsOk, WellFormed;
    OtherLines(ls, w, stuck);
    forall i ensures Valuation(ls, With(EnvOf(c), i)) {
      forall j | 0 <= j < |ls| && (ls[j].State? || ls[j].Input?)
        ensures With(EnvOf(c), i)(j + 1) < Pow2(SortWidth(ls, ls[j].sort))
      {
        ValueFits(ls, w, c, i, j);
      }
    }
  }

  lemma ValueFits(ls: Listing, w: nat, c: Config, i: Inputs, j: nat)
    requires Header(ls, w) && c.Fits(w) && j in {3, 4, 5, 6, 11, 13} && j < |ls|
    requires j == 11 ==> ls[11].State? && ls[11].sort == 2
    requires j == 13 ==> ls[13].State? && ls[13].sort == 3
    ensures With(EnvOf(c), i)(j + 1) < Pow2(SortWidth(ls, ls[j].sort))
  {
    assert With(EnvOf(c), i)(j + 1) == InputOr(EnvOf(c), i, j + 1) && EnvOf(c)(j + 1) == ValueOf(c, j + 1);
    assert Pow2(1) == 2 && Pow2(3) == 8;
    hide Pow2;
  }

  /** Only the lines the header and the circuit name are states or inputs. */
  lemma OtherLines(ls: Listing, w: nat, stuck: bool)
    requires Benchmark(ls, w, stuck)
    ensures |ls| >= 15
    ensures forall i :: 0 <= i < |ls| && (ls[i].State? || ls[i].Input?) ==> i in {3, 4, 5, 6, 11, 13}
    ensures forall i :: 0 <= i < |ls| && ls[i].Init? ==> i == 12 || i == 14
    ensures ls[11].State? && ls[11].sort == 2 && ls[13].State? && ls[13].sort == 3
    ensures ls[12] == Init(2, 12, 9) && ls[14] == Init(3, 14, 10)
    ensures ls[8] == Const(2, Zero) && ls[9] == Const(3, Zero)
  {
    hide Arms, Tail;
    CircuitPlain(ls, 8, TIMEOUT_PORTS, "fsm", stuck, false);
    forall i | 0 <= i < |ls|
      ensures ls[i].State? || ls[i].Input? ==> i in {3, 4, 5, 6, 11, 13}
      ensures ls[i].Init? ==> i == 12 || i == 14
    {
      if i >= 8 {
        assert Plain(ls, i, 8);
      }
    }
  }

  /** Every run of the listing is a run of the machine. */
  lemma {:induction false} RunIsExec(ls: Listing, w: nat, stuck: bool, run: seq<Env>, k: nat)
    requires Benchmark(ls, w, stuck) && Run(ls, run) && k < |run|
    ensures View(run[k]) == Exec(w, stuck, View(run[0]), InputsUpTo(run, k))
  {
    hide Benchmark;
    if k > 0 {
      RunIsExec(ls, w, stuck, run, k - 1);
      assert Edge(ls, run[k - 1], run[k - 1 + 1]);
      EdgeIsStep(ls, w, stuck, run[k - 1], run[k]);
      assert InputsUpTo(run, k)[..k - 1] == InputsUpTo(run, k - 1);
    }
  }

  /** Every run of the machine is a run of the listing. */
  lemma ExecIsRun(ls: Listing, w: nat, stuck: bool, c: Config, ins: seq<Inputs>) returns (run: seq<Env>)
    requires Benchmark(ls, w, stuck) && c.Fits(w)
    ensures Run(ls, run) && |run| == |ins| + 1 && View(run[0]) == c
    ensures View(run[|ins|]) == Exec(w, stuck, c, ins)
    ensures c.st == c.tmr == 0 ==> Initial(ls, run[0])
  {
    hide Benchmark, Valuation, Initial, EnvOf, With, Drivable, Run;
    EnvOfFits(ls, w, stuck, c);
    run := DriveRun(ls, EnvOf(c), ins);
    RunIsExec(ls, w, stuck, run, |ins|);
    if c.st == c.tmr == 0 {
      RunStarts(ls, run);
      ResetIsInitial(ls, w, stuck, run[0]);
    }
  }

  lemma ResetIsInitial(ls: Listing, w: nat, stuck: bool, env: Env)
    requires Benchmark(ls, w, stuck) && Valuation(ls, env) && env(12) == 0 && env(14) == 0
    ensures Initial(ls, env)
  {
    hide Val, Circuit;
    OtherLines(ls, w, stuck);
    LeafVal(ls, env, 9);
    LeafVal(ls, env, 10);
  }

  /** HOLDS at every width: from every state of the listing's whole state space, IDLE is reachable. */
  lemma NetRecoverable(ls: Listing, w: nat, c: Config)
    requires Benchmark(ls, w, false) && c.Fits(w)
    ensures exists run :: Run(ls, run) && View(run[0]) == c && View(run[|run| - 1]).st == 0
  {
    Recoverable(w, c);
    var ins :| |ins| <= 4 && Exec(w, false, c, ins).st == 0;
    var run := ExecIsRun(ls, w, false, c, ins);
  }

  /** A run of the listing from reset, with the limit held at `limit`. */
  ghost predicate ResetRun(ls: Listing, run: seq<Env>, limit: nat) {
    run != [] && Run(ls, run) && Initial(ls, run[0]) && View(run[0]).limit == limit
  }

  /** VIOLATED at every width and limit: the stuck twin has a run from reset, of exactly `limit + 3`
      edges and no shorter, into a state from which no run returns to IDLE. */
  lemma NetStuck(ls: Listing, w: nat, limit: nat)
    requires Benchmark(ls, w, true) && limit < Pow2(w)
    ensures exists run :: ResetRun(ls, run, limit) && |run| == limit + 4 && View(run[limit + 3]).st == 5
    ensures forall run, k :: ResetRun(ls, run, limit) && 0 <= k < |run| && View(run[k]).st == 5 ==> k >= limit + 3
    ensures forall run, k :: Run(ls, run) && View(run[0]).st == 5 && 0 <= k < |run| ==> View(run[k]).st == 5
  {
    hide Benchmark, Initial;
    TimeoutRunFails(w, true, 0, limit);
    var bad := ExecIsRun(ls, w, true, Reset(limit), TimeoutRun(0, limit));
    assert ResetRun(ls, bad, limit);
    forall run, k | ResetRun(ls, run, limit) && 0 <= k < |run| && View(run[k]).st == 5 ensures k >= limit + 3 {
      InitialIsReset(ls, w, true, run[0]);
      RunIsExec(ls, w, true, run, k);
      RunsReach(w, true, limit, InputsUpTo(run, k));
    }
    forall run, k | Run(ls, run) && View(run[0]).st == 5 && 0 <= k < |run| ensures View(run[k]).st == 5 {
      RunIsExec(ls, w, true, run, k);
      StuckForever(w, View(run[0]), InputsUpTo(run, k));
    }
  }
}
