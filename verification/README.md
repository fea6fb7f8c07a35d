# Verification models for mununu

This project models the parts of mununu whose claims quantify over every width, stream length, number of caches,
graph or text, and proves those claims. Each program that works step by step is a method proved against a function
or a stated property; what the program is for is then proved about that function, on all inputs.

`dafny verify dfyconfig.toml` checks the whole project. `Arith`, `Digits` and `Basics` hold what several models share.

## What is modelled

**Benchmark circuits** (`scripts/profile_cases.py`). `Btor` gives the emitted BTOR2 lines their word-level meaning
(Niemetz, Preiner, Wolf and Biere, CAV 2018, section 2): ids name earlier lines, a negative operand is a complement,
`add` wraps, a state without a `next` line and every input is free. `FsmParts`, `TimeoutCircuit`, `TimeoutFsm` and
`PairCircuit`, `HandshakePair` emit the timeout machine and the requester/granter pair line by line, prove the listing
well formed, prove that an edge of the listing is a step of the documented machine for all encodings (the illegal
codes 6 and 7 included), and settle the branching-time targets at every width. `TwoCounter`, `TwoCounterRuns` and
`Raster` do the same for the counting benchmarks and give their targets' exact depth. Two observations on the timeout
machine: while the machine stays in WAIT the timer never passes the limit, so an increment that is kept never wraps;
but the timer register is incremented once more on the edge from WAIT to ERROR, and that increment wraps exactly when
the limit is all ones (`TimeoutFsm.WrapExactly`). The pair is safe exactly from limit 1 on. `Phases` turns the tables
round: how each state is entered, and on which traces of inputs a transaction completes or times out. `Cones` and
`ConeSizes` define the cone of influence of a target and prove the sizes stated for these benchmarks; `BtorWords`
gives the word operators digit by digit.

**Memory fabric** (`examples/verify/v10_mem_fabric_client_mux/generate.py`). `Fabric` is the successor relation with
the stream length as a parameter; `FabricVerdicts` settles duplicate, skip, completion and pace for the four variants
with and without backfill; `FabricSteps` says what a reader of a trace sees of each edge (which choices are free, that
v4 holds a request and v2 and v3 drop it); `FabricExplore` is the breadth-first generator, and `FabricAutomaton` its
name quotient. In v3 any refusal is fatal, with or without a grant on the same edge.

**Preprocessor stripping and package order** (`scripts/vendor_opentitan_ip.py`). `IncAssert` is the line walk with its
stack and the recursive definition on conditional trees; `Preprocess` is the preprocessor of section 22.6 of IEEE Std
1800-2017 on lines and on trees; a text is balanced exactly when it is the text of a tree. `StripMeaning` proves that
stripping keeps the meaning of a balanced text exactly where no live region is met with INC_ASSERT defined, and what a
reader that defines the macro, as the generated macro file does, makes of a stripped text. `StripReports` describes
the walk on every text without its stack: what an error names, which lines stay, and that nothing changes outside the
recorded ranges. `PackageOrder` is the depth-first visit on any graph, and `PackageLimits` says exactly which packages
come first whatever the order of their names, by which every list is sorted: direct dependencies that do not lead back
always do, transitive ones on a cyclic graph not always.

**SSA extraction** (`crates/mununu-extract/src/circt.rs`, `tools/circt_extract.py`). `CirctEval` is the memoised
evaluator with its depth limit of 100 against the plain denotation, and `CirctOps` what each operation means;
`CirctExtract` is the register domains, wrapping, the product and the successor, and `CirctSpaces` says what is
enumerated, in which order, and which environment a step is evaluated in; `CirctSystem` is the transition list, the
search, pruning and the extracted system. The model keeps the code's integers: a 1-bit register ranges over -1 and 0
while `true` evaluates to 1, and a register above 4 bits is enumerated over 0 and 1 but wrapped over its full width.
Both ways out of the product are stated exactly of the system: an empty one for a reset outside its domain
(`CirctSystem`), and, over all wirings, transitions to unlisted states for a width above 4 (`CirctLimits`).

**Cache coherence** (`examples/verify/v4_mesi_parametric/generate.py`). `Mesi` emits the transition lists, composes
them by rendezvous, and characterises the reachable states for every N. An Exclusive copy can stand beside Shared ones
as soon as there are two caches.

**Trace post-processing** (`crates/mununu-core/src/trace.rs`). `SourceLines` is the grouping of locations into runs.
`Faults` is the accounting of fired injections, `FaultReports` says it of the cells of a trace, and `FaultGate`, from
`crates/mununu-core/src/adapter/btor2/fault.rs`, the warm-up and budget gate with its bit widths: the report is proved
to be what the gate does. `FaultBudgets` says exactly when a larger budget can keep a cycle from firing.

**Frontier search** (`scripts/bitcap_frontier.py`). `Frontier` is the seed walk, the bisection, the two extra looks
and the report. A size inside the bracket that cannot run counts there as not deciding, and the report leaves it out;
where the budget covers the bracket, that is the only way a downward-closed engine's frontier is reported with a gap.
`FrontierSweeps` goes through the ways the walk can end and says what the sweep probes and reports in each.

## Model

| member | source | states |
|---|---|---|
| Btor.Emitter.N | scripts/profile_cases.py:180-182 | appends one line whose id is its position and leaves the earlier lines alone |
| Btor.ValBound | scripts/profile_cases.py:195-220 | in a well-formed listing every value fits the width of its sort, through any nesting of operands |
| Btor.NextEnvIsEdge | scripts/profile_cases.py:215-234 | the transition relation of a well-formed listing is total and its inputs are free: every valuation has an edge to one with any chosen inputs |
| BtorWords.JoinedDigits | scripts/profile_cases.py:123-123 | `and` and `or` join each binary digit of their operands, at every width |
| BtorWords.ComplementDigits | scripts/profile_cases.py:121-121 | a negative operand turns each digit |
| FsmParts.SelectVal | scripts/profile_cases.py:208-214 | the emitted `ite` chain selects the arm of the register's code, and the default for the illegal codes |
| TimeoutCircuit.EmitCircuit | scripts/profile_cases.py:188-221 | the emitter appends exactly the lines of the circuit, in order, and returns the state and timer ids |
| TimeoutCircuit.CircuitOk | scripts/profile_cases.py:188-221 | every operand of the circuit names an earlier line of the right width, and each register has one next line |
| TimeoutCircuit.StateVal | scripts/profile_cases.py:198-215 | evaluating the emitted chain gives the six-state table for all 8 codes and all inputs, in all four forms of the circuit |
| TimeoutCircuit.TimerVal | scripts/profile_cases.py:216-220 | evaluating the emitted timer lines counts modulo 2^w in WAIT without an acknowledgement and clears otherwise |
| TimeoutFsm.Generate | scripts/profile_cases.py:224-238 | the generated listing is well formed: the header, the held free limit and the circuit over them |
| TimeoutFsm.EdgeIsStep | scripts/profile_cases.py:224-238 | one clock edge of the listing is one step of the machine, from every state of the full state space |
| TimeoutFsm.RunIsExec | scripts/profile_cases.py:224-238 | every run of the listing is a run of the machine under its own inputs |
| TimeoutFsm.ExecIsRun | scripts/profile_cases.py:224-238 | every run of the machine is a run of the listing, from any configuration and for any inputs |
| TimeoutFsm.WaitNeverOverruns | scripts/profile_cases.py:190-194 | on every run from reset the timer in WAIT is at most the limit, and while the machine stays in WAIT the increment does not wrap |
| TimeoutFsm.WrapExactly | scripts/profile_cases.py:217-220 | a counting edge wraps the timer register if and only if the limit is all ones and the timer has reached it |
| TimeoutFsm.WrapHappens | scripts/profile_cases.py:217-220 | some run from reset has such an edge if and only if the limit is all ones |
| TimeoutFsm.ErrorDepth | scripts/profile_cases.py:203-206 | ERROR is occupied after some n edges from reset if and only if n is at least limit + 3, for every width and limit |
| TimeoutFsm.StuckForever | scripts/profile_cases.py:203-203 | in the stuck twin ERROR is absorbing under all inputs |
| TimeoutFsm.NetRecoverable | scripts/profile_cases.py:224-229 | HOLDS at every width: from every state of the listing's state space a run reaches IDLE |
| TimeoutFsm.NetStuck | scripts/profile_cases.py:228-242 | VIOLATED at every width and limit: the stuck listing has a run from reset of exactly limit + 3 edges, and no shorter, into a state no run leaves |
| Phases.EnteredOnEdge | scripts/profile_cases.py:198-220 | on every edge of the timeout listing, each state is entered exactly from the states and inputs that lead to it, the limit is held and the timer counts in WAIT only |
| Phases.Entered | scripts/profile_cases.py:190-215 | the same of the table in all four forms; with a level acknowledgement ACTIVE is left when it drops |
| Phases.WaitExactly | scripts/profile_cases.py:190-220 | a run from reset is in WAIT if and only if it was IDLE, started, and has waited without a reply since, no longer than the limit |
| Phases.DoneExactly | scripts/profile_cases.py:190-220 | a run from reset is in DONE if and only if it was started from IDLE and acknowledged, two edges ago, after no more edges of waiting than the limit |
| Phases.TimeoutExactly | scripts/profile_cases.py:190-220 | a run from reset enters ERROR if and only if it was started from IDLE and then waited exactly limit + 1 edges without a reply |
| Phases.NetDoneExactly | scripts/profile_cases.py:224-238 | completion, exactly, on every run of the listing from reset |
| Phases.TimerRests | scripts/profile_cases.py:216-220 | off WAIT the timer reads 0, but for the one edge after a timeout |
| Phases.TimeoutNames | scripts/profile_cases.py:224-238 | the target's name `fsm_st` is that of one register, the state, and the inputs have their names |
| PairCircuit.Generate | scripts/profile_cases.py:245-292 | the generator emits exactly the 74 lines of the pair, and they are well formed |
| PairCircuit.RequesterVal | scripts/profile_cases.py:268-277 | the requester's emitted next state is its documented table over the granter's current state |
| PairCircuit.GranterVal | scripts/profile_cases.py:278-286 | the granter's emitted next state is its documented table over the requester's current state |
| PairCircuit.TimerVals | scripts/profile_cases.py:287-291 | the requester counts in WAIT without a grant and the granter in BUSY under a request, modulo 2^w, else both clear |
| HandshakePair.EdgeIsStep | scripts/profile_cases.py:245-292 | one clock edge of the listing is one step of the coupled machines |
| HandshakePair.RunsStayInHandshake | scripts/profile_cases.py:245-292 | for every width and limit of at least 1, every run from reset stays in the joint handshake phases and keeps the limit |
| HandshakePair.RequestServed | scripts/profile_cases.py:268-286 | a reached REQ is followed by WAIT, WAIT and USE on the next three edges under all inputs |
| HandshakePair.ErrorsExactlyAtZero | scripts/profile_cases.py:268-291 | each machine's ERR is reachable from reset by the coupled step if and only if the limit is 0 |
| HandshakePair.NetErrorsExactlyAtZero | scripts/profile_cases.py:245-292 | the same on runs of the listing from an initial valuation: one ends in each ERR if and only if the limit is 0 |
| HandshakePair.Recoverable | scripts/profile_cases.py:245-250 | from every state of the full state space, timers above the limit included, requester IDLE is reached within a rank built on (limit - timer) modulo 2^w |
| HandshakePair.NetSafe | scripts/profile_cases.py:245-292 | the safety and the service claim hold on every run of the listing from an initial valuation |
| HandshakePair.NetRecoverable | scripts/profile_cases.py:245-250 | HOLDS at every width: from every valuation of the listing a run reaches requester IDLE |
| Phases.PairEnteredOnEdge | scripts/profile_cases.py:266-286 | on every edge of the pair's listing, each state of each machine is entered exactly from the states and inputs that lead to it |
| Phases.PairNames | scripts/profile_cases.py:257-258 | the names `req_st` and `gnt_st` are each those of one register |
| TwoCounter.ForwardEdge | scripts/profile_cases.py:131-143 | an edge of the forward listing advances exactly one counter modulo 2^w, and `bad` is both at m-1 |
| TwoCounter.ForwardBad | scripts/profile_cases.py:139-139 | what the `bad` line names holds exactly where both counters read m-1 |
| TwoCounter.ForwardLayer | scripts/profile_cases.py:131-137 | the states after k edges are exactly the pairs (i mod 2^w, (k-i) mod 2^w) |
| TwoCounter.BadDepth | scripts/profile_cases.py:131-143 | the corner is reached after exactly k edges if and only if k is 2(m-1) plus a multiple of 2^w |
| TwoCounterRuns.NetBadDepth | scripts/profile_cases.py:131-143 | on runs of the listing itself from an initial valuation, the property of its `bad` line is hit after exactly those k |
| TwoCounter.LatchedEdge | scripts/profile_cases.py:111-128 | from every state the widths admit an edge of the latched listing advances one counter, wrapping at m or beyond it at the width, and latches `done`; counters in range stay in range |
| TwoCounter.CornerDepth | scripts/profile_cases.py:112-115 | from every state the fewest edges to (m-1, m-1) is exactly what the two counters have left, reached and not beaten; in range that is (m-1-a)+(m-1-b) |
| TwoCounter.DoneDepth | scripts/profile_cases.py:112-115 | `done` is latched first exactly one edge after that |
| TwoCounterRuns.NetCornerDepth | scripts/profile_cases.py:111-128 | on runs of the latched listing from every state of its space: the corner after exactly its distance, and no run sooner |
| TwoCounterRuns.NetDoneDepth | scripts/profile_cases.py:111-128 | some run of k edges of the latched listing latches `done` if and only if k exceeds the distance |
| TwoCounterRuns.NetDoneFromReset | scripts/profile_cases.py:111-128 | from an initial valuation that is k at least 2(m-1) + 1 |
| TwoCounterRuns.LatchedReset | scripts/profile_cases.py:117-123 | an initial valuation of the latched listing is both counters at 0 and `done` clear, and only that |
| TwoCounterRuns.LatchedNames | scripts/profile_cases.py:123-126 | the target's name `done` is that of one register |
| Raster.EdgeIsStep | scripts/profile_cases.py:89-97 | an edge of the raster listing is a step of the two counters from every state the widths admit |
| Raster.TargetDepth | scripts/profile_cases.py:89-108 | from every state, line and row values outside the raster included, `vcount == v-1` holds first after exactly the stated number of edges |
| Raster.NetTargetDepth | scripts/profile_cases.py:89-108 | the same on every run of the listing |
| Raster.ReadsTheTime | scripts/profile_cases.py:89-97 | from reset the counters read the line position and the row of the elapsed edges, exactly |
| Raster.ResetIsCorner | scripts/profile_cases.py:95-95 | an initial valuation is both counters at 0, and only that |
| Raster.NetReadsTheTime | scripts/profile_cases.py:93-98 | on every run of the listing from reset the counters read the elapsed edges, 800 to a line |
| Raster.NetTargetFromReset | scripts/profile_cases.py:89-98 | and the target is first read after exactly 800(v-1) edges |
| ConeSizes.TimeoutCone | scripts/profile_cases.py:224-230 | the registers and inputs in the cone of the timeout target are exactly the named ones, 2w+6 bits, and 2w+5 for the stuck twin, which never reads `clr` |
| ConeSizes.PairCone | scripts/profile_cases.py:245-250 | those in the cone of the pair's target have 3w+9 bits |
| ConeSizes.CounterCone | scripts/profile_cases.py:111-128 | those in the cone of `done` are both counters, the latch and the input: 2w+2 bits |
| ConeSizes.CounterShape | scripts/bitcap_frontier.py:104-107 | so 2w+2 for the modulus 2^w |
| ConeSizes.RasterCone | scripts/bitcap_frontier.py:108-112 | those in the cone of the raster target have 10 bits and those of the row counter, which is w for the modulus 2^w |
| ConeSizes.CeilingExactly | scripts/bitcap_frontier.py:85-112 | these cones are over the ceiling of 192 bits exactly from 94, 62, 96 and 183 on |
| Fabric.Successors | examples/verify/v10_mem_fabric_client_mux/generate.py:129-240 | the nested loops produce the edges of the relation, in order, every field from the pre-state |
| Fabric.EdgeKeeps | examples/verify/v10_mem_fabric_client_mux/generate.py:129-240 | each variant's inductive invariant is kept by every edge, for every N and schedule |
| Fabric.RunKeeps | examples/verify/v10_mem_fabric_client_mux/generate.py:129-240 | the invariant holds at the end of every run |
| FabricSteps.OffersExactly | examples/verify/v10_mem_fabric_client_mux/generate.py:145-180 | from every state an invariant allows, the label sets of the edges are exactly the free choices: a grant or none, a refusal or an acceptance of a presented request |
| FabricSteps.OffersInOrder | examples/verify/v10_mem_fabric_client_mux/generate.py:152-180 | and the edges are listed in that order, none lost to the modelled range |
| FabricSteps.LabelsDecide | examples/verify/v10_mem_fabric_client_mux/generate.py:145-240 | nothing else is free: labels determine the next state |
| FabricSteps.HeldUnlessAccepted | examples/verify/v10_mem_fabric_client_mux/generate.py:201-214 | v4: an edge that does not accept leaves the presented request and the whole state as they were |
| FabricSteps.GoneUnlessGranted | examples/verify/v10_mem_fabric_client_mux/generate.py:196-235 | an accepted request leaves the register, and in v2 and v3 a refused one, which moves nothing else |
| FabricSteps.GrantLatches | examples/verify/v10_mem_fabric_client_mux/generate.py:222-231 | a grant that is not absorbed latches the pointer from before the edge |
| FabricSteps.Advances | examples/verify/v10_mem_fabric_client_mux/generate.py:182-231 | the pointer moves on a grant in v3 and on an accept elsewhere; a word counts as delivered on an accept without a fault, and only an accept raises one |
| FabricSteps.HeldUntilAccepted | examples/verify/v10_mem_fabric_client_mux/generate.py:30-32 | v4, over whole runs: a request keeps its address until it is accepted |
| FabricSteps.RefusedIsLost | examples/verify/v10_mem_fabric_client_mux/generate.py:27-28 | v3, over whole runs: a refused address is never presented again |
| FabricVerdicts.CompletionExactly | examples/verify/v10_mem_fabric_client_mux/generate.py:129-240 | from an invariant state completion is reachable if and only if there was no fault and no word was lost |
| FabricVerdicts.RefusalIsFatal | examples/verify/v10_mem_fabric_client_mux/generate.py:198-202 | in v3 no run completes after any refused grant |
| FabricVerdicts.Verdicts | examples/verify/v10_mem_fabric_client_mux/generate.py:22-40 | for every N and schedule: DUP is reachable iff v2 with backfill and N >= 1, SKIP iff v3, every variant can complete from the start, and exactly v1, v4 and the harmless v2 cases can complete from every reachable state |
| FabricVerdicts.OracleExact | examples/verify/v10_mem_fabric_client_mux/generate.py:95-104 | on every run of every variant the accepted addresses are 0, 1, 2, ... up to the first fault, which the oracle names correctly |
| FabricVerdicts.SoundDelivery | examples/verify/v10_mem_fabric_client_mux/generate.py:22-40 | in v1 and v4 every run is without error and accepts exactly 0, 1, 2, ... in order |
| FabricVerdicts.Throughput | examples/verify/v10_mem_fabric_client_mux/generate.py:149-237 | on each schedule k edges can deliver d words if and only if k is at least d in v1, 2d in v2 and v4, and in v3 d+1 with backfill and 2d without |
| FabricExplore.Search | examples/verify/v10_mem_fabric_client_mux/generate.py:253-264 | the queue search ends, lists exactly the reachable states once each and by their distance from the start, and records exactly their edges under their names, state by state |
| FabricExplore.Explore | examples/verify/v10_mem_fabric_client_mux/generate.py:253-288 | the emitted names and edges are exactly those of the reachable states plus the three declared outcomes, in the order the search meets them, each once |
| FabricAutomaton.NamesBisimulate | examples/verify/v10_mem_fabric_client_mux/generate.py:243-250 | states of one name have the same labels to successors of the same names |
| FabricAutomaton.ReachesExactly | examples/verify/v10_mem_fabric_client_mux/generate.py:265-288 | a name is reachable in the emitted automaton if and only if a run of the relation reaches a state of that name |
| FabricAutomaton.EmittedVerdicts | examples/verify/v10_mem_fabric_client_mux/generate.py:270-288 | the outcome states of the emitted automaton are reachable exactly as the variants' verdicts say |
| FabricAutomaton.FinishExactly | examples/verify/v10_mem_fabric_client_mux/generate.py:401-403 | from the name of a reachable state the automaton has a path to DONE if and only if that very state can complete |
| FabricAutomaton.EmittedNeverWedged | examples/verify/v10_mem_fabric_client_mux/generate.py:401-403 | on paths of the emitted automaton completion stays possible everywhere if and only if the variant is v1, v4, or v2 where it cannot duplicate |
| IncAssert.StripIncAssert | scripts/vendor_opentitan_ip.py:209-235 | the loop with its in-place stack computes the walk, including each of its three refusals |
| IncAssert.WalkDoc | scripts/vendor_opentitan_ip.py:210-230 | on a well-nested text, in any surrounding stack, the walk adds the recursively stripped text (or nothing where the stack drops it) and the regions, and stops at the first `elsif` of a region |
| IncAssert.WalkOutcome | scripts/vendor_opentitan_ip.py:209-235 | a well-nested text is refused exactly for an `elsif` in a region or for having no region, and otherwise gives the stripped tree's text and the region line ranges |
| StripReports.WalkDescribed | scripts/vendor_opentitan_ip.py:209-241 | on every text, balanced or not: an error names the first `elsif` of a region or the innermost conditional left open; otherwise the output is the lines that stay, by the depth and branches around each, and the ranges are the regions in the order they close |
| StripReports.VerbatimOutside | scripts/vendor_opentitan_ip.py:243-250 | every accepted text is put out verbatim outside the recorded ranges, whose first and last lines are left out |
| Preprocess.PreprocessedDoc | scripts/vendor_opentitan_ip.py:209-215 | the stack-machine preprocessor of section 22.6 agrees with the meaning of the conditional tree |
| Preprocess.BalancedIsTree | scripts/vendor_opentitan_ip.py:212-215 | a text is balanced if and only if it is the text of a conditional tree |
| Preprocess.ElsifIsElse | scripts/vendor_opentitan_ip.py:212-215 | section 22.6: an `elsif` means an `else` with the rest as a conditional inside |
| Preprocess.IfndefIsIfdef | scripts/vendor_opentitan_ip.py:212-215 | section 22.6: `ifndef` means `ifdef` with its branches exchanged |
| Preprocess.DefinesDecide | scripts/vendor_opentitan_ip.py:212-215 | section 22.6: after a `define` the first branch is compiled, after an `undef` what follows it |
| StripMeaning.MeetsExactly | scripts/vendor_opentitan_ip.py:209-215 | meeting a live INC_ASSERT region with the macro defined is the same on lines and on the conditional tree |
| StripMeaning.StrippedMeansTheSame | scripts/vendor_opentitan_ip.py:209-250 | every accepted balanced text stays balanced, and compiles to the same lines and macros for every macro set under which no live region is met with INC_ASSERT defined |
| StripMeaning.MarkMatters | scripts/vendor_opentitan_ip.py:209-215 | a fresh line at the head of the first region met with INC_ASSERT defined is compiled before stripping or after, and not both |
| StripMeaning.RobustExactly | scripts/vendor_opentitan_ip.py:209-250 | an accepted text means the same after stripping, wherever a new line is put into it, if and only if no live region is met with INC_ASSERT defined |
| StripMeaning.StrippedHidesInc | scripts/vendor_opentitan_ip.py:27-37 | where only opening directives name INC_ASSERT, the stripped text read with the macro defined compiles to what the original gives without it |
| StripMeaning.EndsExactly | scripts/vendor_opentitan_ip.py:216-235 | on every text, balanced or not, the walk accepts or refuses, and why, exactly as the nesting of regions, their `elsif` lines and their ends decide |
| StripMeaning.StrayMarksPass | scripts/vendor_opentitan_ip.py:226-230 | one more `else` anywhere, a second one in a region included, and a stray `endif` before the text leave that verdict as it is |
| StripMeaning.SafeExactly | scripts/vendor_opentitan_ip.py:209-215 | stripping is safe for a macro set, on all accepted texts that compile no `define` of INC_ASSERT, if and only if INC_ASSERT is not in it |
| StripMeaning.LostInside | scripts/vendor_opentitan_ip.py:209-215 | an instance: a `define` of INC_ASSERT before a region, after which the stripped text loses the region's line |
| StripMeaning.SecondPassFindsNothing | scripts/vendor_opentitan_ip.py:233-235 | stripping an output again is refused for having no region |
| StripMeaning.BalancedNeverRefused | scripts/vendor_opentitan_ip.py:231-232 | the unbalanced report never appears on a balanced text |
| PackageOrder.VisitKeeps | scripts/vendor_opentitan_ip.py:269-275 | a visit only appends, emits its package unless its own visit is under way, never repeats one, and keeps every dependency that does not lead back before its user |
| PackageOrder.Visitor.Visit | scripts/vendor_opentitan_ip.py:269-275 | the recursion over the shared order and seen set ends on every graph and equals the visit function |
| PackageOrder.OrderPackages | scripts/vendor_opentitan_ip.py:267-278 | on every graph, cyclic or not, each package is emitted exactly once and after each direct dependency that does not lead back to it |
| PackageOrder.AcyclicIsTopological | scripts/vendor_opentitan_ip.py:267-278 | on an acyclic graph every transitive dependency is emitted first |
| PackageLimits.VisitedExactly | scripts/vendor_opentitan_ip.py:269-275 | a visit emits exactly what can be reached from its package without passing through a visit that is under way |
| PackageLimits.BeforeExactly | scripts/vendor_opentitan_ip.py:267-278 | on every graph, with every list sorted by one order of the packages: g is emitted before f whatever that order is, if and only if, for every simple path to f, g can be reached from f without the rest of that path |
| PackageLimits.UnderAnyLists | scripts/vendor_opentitan_ip.py:269-275 | that condition suffices even where each dependency list has an order of its own |
| PackageOrder.TransitiveOrderFailsOnCycles | scripts/vendor_opentitan_ip.py:269-275 | an instance: on a cyclic graph a transitive dependency that leads nowhere back is emitted later |
| CirctEval.Evaluator.Evaluate | crates/mununu-extract/src/circt.rs:217-301 | the recursion over the shared cache returns the value and leaves the cache of the evaluation function |
| CirctEval.EvalIsDenote | crates/mununu-extract/src/circt.rs:217-301 | with any valid cache, a name of height at most 100 minus the depth evaluates to its plain value, and the cache stays valid |
| CirctEval.DenoteUnique | crates/mununu-extract/src/circt.rs:238-297 | the plain value does not depend on the bound that shows the graph acyclic |
| CirctEval.SharedCacheIsHarmless | crates/mununu-extract/src/circt.rs:395-399 | evaluating the registers in any order with one cache gives each the value it has alone |
| CirctEval.DepthLimitIsExact | crates/mununu-extract/src/circt.rs:224-226 | a chain of operations evaluates to its plain value from an empty cache if and only if it is no longer than 100 |
| CirctEval.OrderMattersBeyondTheLimit | crates/mununu-extract/src/circt.rs:224-230 | one step above the limit the truncated value is cached, so two orders of the same registers give different values |
| CirctEval.UnsignedLessAgree | crates/mununu-extract/src/circt.rs:256-256 | the 64-bit `ult` of the Rust program and the 32-bit one of the Python program agree on all b-bit two's-complement operands if and only if b is at most 32 |
| CirctOps.EvaluatedMeans | crates/mununu-extract/src/circt.rs:217-301 | what the program computes for a name no more than 100 operations high is its plain value |
| CirctOps.LeafMeans | crates/mununu-extract/src/circt.rs:232-248 | the environment comes first; an unknown name and an unknown register read 0 |
| CirctOps.ConstantMeans | crates/mununu-extract/src/circt.rs:242-247 | `true` is 1, `false` 0, a decimal itself when it fits 64 bits, anything else 0 |
| CirctOps.IcmpMeans | crates/mununu-extract/src/circt.rs:249-263 | a comparison is 1 or 0; `slt` holds exactly when the left value is less, `sgt` is its converse, `sge` and `sle` their complements, `ult` puts negative values above the others, an unknown one never holds |
| CirctOps.MuxMeans | crates/mununu-extract/src/circt.rs:264-275 | a choice has the value of its first branch where the selector is not 0 and of the second where it is |
| CirctOps.BitwiseMeans | crates/mununu-extract/src/circt.rs:276-297 | every digit of a bit operation, the sign included, is the conjunction, disjunction or parity of the operands' digits, for any number of operands |
| CirctOps.DigitsDecideValue | crates/mununu-extract/src/circt.rs:276-297 | and the digits decide the value |
| CirctExtract.WrapIsTwosComplement | crates/mununu-extract/src/circt.rs:400-410 | a wrapped value is congruent modulo 2^w and lies in the two's-complement range |
| CirctExtract.DomainClosedExactly | crates/mununu-extract/src/circt.rs:340-345 | wrapping stays in the enumerated domain for every value if and only if the width is 1 to 4 |
| CirctExtract.EnumerateProduct | crates/mununu-core/src/adapter/state_enum.rs:14-38 | the three nested loops list the product of the domains |
| CirctExtract.ProductMembers | crates/mununu-core/src/adapter/state_enum.rs:14-38 | the product holds exactly the combinations of domain values |
| CirctExtract.ProductDistinct | tools/circt_extract.py:252-254 | each combination occurs once |
| CirctExtract.Successor | crates/mununu-extract/src/circt.rs:382-414 | the register loop with one shared cache computes the successor |
| CirctExtract.NextIsDenoted | crates/mununu-extract/src/circt.rs:395-410 | within the depth limit each register's next value is its wrapped plain value |
| CirctSpaces.EnvBinds | crates/mununu-extract/src/circt.rs:386-392 | with names of their own, each register reads its value of the state and each input its value of the step, and nothing else is known |
| CirctSpaces.NextReads | crates/mununu-extract/src/circt.rs:386-412 | a register wired to an input takes the wrapped value of that input, one wired to a register that register's |
| CirctSpaces.NextMeans | crates/mununu-extract/src/circt.rs:395-412 | in general it takes the wrapped meaning of its next name among these values |
| CirctSpaces.DataInputsExactly | crates/mununu-extract/src/circt.rs:351-357 | the inputs are the ports but `clk` and `rst`, in their order |
| CirctSpaces.InputsExactly | crates/mununu-extract/src/circt.rs:359-372 | the steps are all combinations of 0 and 1 of the inputs, 2^n of them, in lexical order |
| CirctSpaces.StatesExactly | crates/mununu-extract/src/circt.rs:336-369 | the states are all two's-complement values of registers of 1 to 4 bits and 0 and 1 of wider ones, in lexical order; with narrow registers 2^(sum of widths) of them |
| CirctSpaces.ResetIs | crates/mununu-extract/src/circt.rs:598-608 | a register starts at what its reset constant means, and at 0 where the reset name is no constant |
| CirctSpaces.ResetIsNoEvaluation | crates/mununu-extract/src/circt.rs:598-608 | an instance: a reset name that would evaluate to 1 and is taken as 0 |
| CirctSystem.BuildTransitions | tools/circt_extract.py:270-314 | the loops emit exactly one transition for each product state and input, without repeats, state by state and for each by input |
| CirctSystem.Search | tools/circt_extract.py:324-333 | the queue loop ends with exactly the states some run from the initial one reaches |
| CirctSystem.PruningKeepsRuns | tools/circt_extract.py:335-336 | the pruned list has exactly the runs of the full list from the initial state |
| CirctSystem.ExtractReactiveSystem | crates/mununu-extract/src/circt.rs:324-480 | no registers is an error; otherwise the system is the product's transitions pruned to the reachable part, states and transitions in the order of the enumeration |
| CirctSystem.RunsStayInProduct | crates/mununu-extract/src/circt.rs:382-441 | with registers of 1 to 4 bits and in-range resets every run from reset stays in the product |
| CirctSystem.ExtractedIsDeterministic | crates/mununu-extract/src/circt.rs:382-465 | such a system has the reset state as its one initial state and exactly one transition per state and input, to one of its states |
| CirctSystem.ExtractedHasTheRuns | crates/mununu-extract/src/circt.rs:443-465 | its runs are exactly the runs from reset of the full transition list, and they end in its states |
| CirctSystem.EmptyExactlyOnBadReset | crates/mununu-extract/src/circt.rs:349-350 | the extracted system is empty if and only if some reset value lies outside its register's domain |
| CirctSystem.TrueIsNoResetOfABit | crates/mununu-extract/src/circt.rs:599-608 | the reset constant `true` of a 1-bit register is such a value |
| CirctSystem.WideRegisterEscapes | crates/mununu-extract/src/circt.rs:340-345 | a register above 4 bits with next value 2 gives a kept transition to a state that is not in the system |
| CirctLimits.LandsExactly | crates/mununu-extract/src/circt.rs:340-345 | for given registers of at least one bit, every wiring and operation table with resets in their domains gives transitions into listed states only, if and only if no register has more than 4 bits |
| CirctLimits.SystemExists | crates/mununu-extract/src/circt.rs:324-480 | every design has an extracted system, so what is said of it is not said of nothing |
| Mesi.CacheArcs | examples/verify/v4_mesi_parametric/generate.py:57-77 | the emitted list of a cache is exactly its protocol step on all bus labels: deterministic, complete and without repeats |
| Mesi.MemoryArcs | examples/verify/v4_mesi_parametric/generate.py:97-103 | the emitted list of the memory is exactly its step, without repeats |
| Mesi.JointIsStep | examples/verify/v4_mesi_parametric/generate.py:156-159 | composing the lists by rendezvous gives exactly the joint step, so every label is enabled in every state |
| Mesi.Pairs | examples/verify/v4_mesi_parametric/generate.py:113-116 | the formula's index pairs are exactly those i < j < N, each once, N(N-1)/2 of them |
| Mesi.PairwiseIsAtMostOne | examples/verify/v4_mesi_parametric/generate.py:112-117 | the pairwise formula says exactly that at most one cache is in M |
| Mesi.ReachableExactly | examples/verify/v4_mesi_parametric/generate.py:14-23 | for every N a state is reached by a run if and only if it is one of four stated kinds |
| Mesi.Coherence | examples/verify/v4_mesi_parametric/generate.py:14-23 | on every run at most one cache is in E or M, a cache in M leaves every other in I, and the formula holds |
| Mesi.WrittenExactly | examples/verify/v4_mesi_parametric/generate.py:97-103 | memory is Written if and only if the run has a write |
| Mesi.ExclusiveBesideSharedExactly | examples/verify/v4_mesi_parametric/generate.py:57-77 | E and S coexist on some run if and only if N is at least 2 |
| Mesi.WriteVisible | examples/verify/v4_mesi_parametric/generate.py:173-178 | from every reachable state one write makes memory Written, if and only if there is a core |
| SourceLines.CompactLines | crates/mununu-core/src/trace.rs:120-146 | the loop's groups are canonical (files ascending and once, runs maximal with gaps) and cover exactly the given locations |
| SourceLines.StringLessExactly | crates/mununu-core/src/trace.rs:121-123 | a file comes before another exactly when at their first difference its character is smaller or its name has ended |
| SourceLines.CanonicalUnique | crates/mununu-core/src/trace.rs:118-153 | two canonical groupings are equal if and only if they cover the same locations |
| SourceLines.LastPiece | crates/mununu-core/src/trace.rs:127-135 | the last run is the maximal run that ends at the greatest location, apart from all earlier ones |
| Faults.FiredFaults | crates/mununu-core/src/trace.rs:216-257 | the loop with its running charge computes the report of every cycle |
| Faults.BudgetNeverExceeded | crates/mununu-core/src/trace.rs:211-215 | on every trace the reported injections are at most the charge, and the charge at most the budget |
| Faults.FiredAt | crates/mununu-core/src/trace.rs:239-255 | each cycle reports all its enabled sites that carry a value or none, and none before the warm-up |
| Faults.ReportsExactly | crates/mununu-core/src/trace.rs:219-255 | a fault is reported on a cycle if and only if the cycle fires and some site whose enable is on has a value cell, which the fault carries |
| FaultReports.ChargedExactly | crates/mununu-core/src/trace.rs:227-244 | a cycle charges as many injections as enables read a number other than 0 when there are some, the warm-up is over and they fit the budget, and otherwise none |
| FaultReports.ReportExactly | crates/mununu-core/src/trace.rs:245-255 | a cycle that fires reports, in the order of the sites, exactly those that ask and whose value input is there |
| FaultReports.CarriesTheCell | crates/mununu-core/src/trace.rs:222-255 | each under its name, with the number and digits of the last cell of its value input |
| Faults.RaisingTheBudget | crates/mununu-core/src/trace.rs:239-245 | a larger budget never charges less at any point of any trace |
| FaultBudgets.SilencesExactly | crates/mununu-core/src/trace.rs:239-245 | with an enable of its own for every site, raising a budget from k to l silences a reporting cycle of some numbered trace if and only if k is at least 1 and there are three sites, or two and l - k is odd |
| FaultBudgets.SilencedOnlyIf | crates/mununu-core/src/trace.rs:239-245 | the same condition is necessary on every trace, numbered or not |
| FaultBudgets.UnboundedSilencesNothing | crates/mununu-core/src/trace.rs:239-245 | an unbounded budget silences no cycle of any trace |
| FaultGate.ComparisonIsExact | crates/mununu-core/src/adapter/btor2/fault.rs:513-520 | the gate's comparison does not wrap for any counter state, reachable or not |
| FaultGate.WidthsAreLeast | crates/mununu-core/src/adapter/btor2/fault.rs:410-521 | the clock and the counter are as narrow as the warm-up, and the budget with all sites and one more, allow |
| FaultGate.ClockSaturates | crates/mununu-core/src/adapter/btor2/fault.rs:406-471 | the warm-up clock counts the cycles and stops at the warm-up, in its own width |
| FaultGate.GateStep | crates/mununu-core/src/adapter/btor2/fault.rs:510-604 | in one cycle the gate injects at the enabled sites exactly when the accounting rule fires, and counts them without wrapping |
| FaultGate.ReportIsWhatHappened | crates/mununu-core/src/trace.rs:211-215 | on every trace numbered from 0 the gate's counter is the charge and the reported faults are the injected ones |
| Frontier.Walk | scripts/bitcap_frontier.py:203-217 | the walk probes the seeds up to the first that does not decide, with the last deciding one before it |
| Frontier.Narrow | scripts/bitcap_frontier.py:218-227 | the loop computes the bisection and probes its middles in order |
| Frontier.MidsInside | scripts/bitcap_frontier.py:220-227 | a bisection stays within its budget, probes only inside the bracket and nothing twice, and ends at probed sizes |
| Frontier.BisectBrackets | scripts/bitcap_frontier.py:221-227 | whatever the engine, the bracket keeps a deciding lower and a non-deciding upper end |
| Frontier.BudgetExactly | scripts/bitcap_frontier.py:220-227 | m probes find every threshold in the bracket if and only if the gap is at most 2^m |
| Frontier.PlanDistinct | scripts/bitcap_frontier.py:200-239 | a sweep probes no size twice |
| Frontier.PlanSize | scripts/bitcap_frontier.py:200-239 | a sweep probes the walked seeds first, and then at most its budget and one size more |
| Frontier.LookIsNext | scripts/bitcap_frontier.py:228-234 | while the budget lasts the smallest unprobed seed past the last non-decider is probed |
| Frontier.LadderIsProbed | scripts/bitcap_frontier.py:235-245 | when every probe could run, the smallest seed over the ceiling is probed, and the report has a ladder row no larger |
| FrontierSweeps.UnrunnableEndsTheSweep | scripts/bitcap_frontier.py:208-246 | a walk that meets a seed that cannot run is the whole sweep: no bisection, no look, no ladder probe; the ladder row is the first of its seeds over the ceiling, that one included |
| FrontierSweeps.AllSeedsDecide | scripts/bitcap_frontier.py:208-246 | when every seed decides the sweep is the seeds |
| FrontierSweeps.FirstSeedUndecided | scripts/bitcap_frontier.py:208-234 | when the first seed does not decide, the second follows it while a probe is left, and then at most the ladder |
| FrontierSweeps.BracketSearched | scripts/bitcap_frontier.py:218-234 | between a deciding and an undecided seed come the middles, and then exactly the smallest unprobed seed past the last non-decider, if the budget lasts and there is one |
| FrontierSweeps.MiddleHalves | scripts/bitcap_frontier.py:222-222 | each middle halves its bracket, the lower half being the shorter of an odd one |
| FrontierSweeps.LadderExactly | scripts/bitcap_frontier.py:235-237 | the smallest seed over the ceiling is probed last if and only if it was not probed and every probe could run |
| FrontierSweeps.FlagExactly | scripts/bitcap_frontier.py:244-244 | the flag is raised if and only if the report names a first non-decider below its largest decider |
| FrontierSweeps.FixedIsProbedOnce | scripts/bitcap_frontier.py:200-201 | a fixed design is probed once, and the report says what that probe said |
| FrontierSweeps.RasterReach | scripts/bitcap_frontier.py:105-112 | an instance: the raster's sweep ends at 63 without a ladder row |
| Frontier.FlagIsSound | scripts/bitcap_frontier.py:241-246 | the non-monotone flag always witnesses an engine that is not downward-closed |
| Frontier.Sweep | scripts/bitcap_frontier.py:190-246 | the program probes exactly the planned sizes, in order, and its report names the extremes of those probes |
| Frontier.FrontierExactly | scripts/bitcap_frontier.py:218-246 | on a downward-closed engine with a bracket within the budget the report names the largest deciding size and raises no flag, and it names the successor as first non-decider if and only if the successor can be run; so whenever all probes ran |
| Frontier.UnrunnableLeavesAGap | scripts/bitcap_frontier.py:223-227 | for every t, a sweep over the seeds t and t+2 whose middle cannot run names t and t+2 |

## Left out

- The engines behind the verdicts (BDD, model checking, composition, the calculus evaluator) and all input, output, rendering and command dispatch.
- Text forms: BTOR2 decimals, state-name strings and header comments. Names are values; that distinct states have distinct strings is not proved.
- The line pattern of `strip_inc_assert`: a line is given with the directive the pattern finds. The 22.6 model takes directives as whole lines; file inclusion and macro expansion are not part of it.
- `order_sources` after the packages: the split of the files by their declarations and the rank order of modules. Names are taken to be distinct; where two files of one name tie, the order of their list is the set's.
- Frontier.Sweep: the engine is taken as a function of the size, because a measured wall time is not reproducible; a size probed twice would read the same.
- Parsing of MLIR and of integer literals, the extraction's JSON, and name collisions between registers. The Rust program's breadth-first search marks a state when it is queued; the Python program's loop, which marks it when taken, is the one modelled.
- Arithmetic overflow of `i64` in the wrapping of registers of 63 bits and more (`1i64 << width`), and of `u32` in the sum that sizes the injection counter: both are unbounded here.
- FaultGate.ReportIsWhatHappened: stated for traces whose cycle numbers count from 0, as the gate's clock does; the replacement of a site's next value by the injected one is not modelled.
- SourceLines.CompactLines: groups before they are printed; the printed text is not modelled.
- `TraceNames::tidy`, slices and replay views: the netlist slicer and the runner are not part of this model.
- The multiplier, relational, bus and cube generators of `scripts/profile_cases.py`: no claim of theirs holds at every size without the engine.
- The fixed small systems under `examples/verify` v1 to v3, and `scripts/ledger_check.py`: enumeration or a short case split settles them.
