# Symkernel in Dafny

A model of the stateful and algorithmic parts of symkernel, with proofs about whole runs of them:

- the symbolic executor for WebAssembly functions (`SymbolicExecutor`, `SymbolicReport`) against a concrete
  interpreter (`WasmInterpreter`), the SMT meaning of its expressions (`Smt`), when its runs succeed
  (`SymbolicProgress`), and the code-entry parser it starts from (`WasmParser`, `Leb128`);
- the leader election (`RaftNode`) under loss, delay, duplication and reordering of messages (`RaftSafety`,
  `RaftStepDown`, `RaftReign`, `RaftRerun`), how long a leader leads (`RaftTenure`) and how elections begin, are won
  and become known (`RaftElection`);
- policy replication between regions (`Federation`), its convergence when passes do not overlap
  (`FederationConvergence`), what happens when passes and authors interleave at the grain of single store operations
  (`FederationInterleaving`, `FederationSerial`), and convergence when passes overlap (`FederationOverlap`);
- the consistent-hashing ring (`Ring`);
- the decision cache (`DecisionCache`) and the solver front end around it (`CachedSolver`);
- the Redis wire codec (`Resp`, `Decimal`), the circuit breaker (`CircuitBreaker`) and the latency metrics
  (`Latency`, `PercentileRange`).

Code that works on values is modelled by functions. Code that updates state is modelled by classes and methods
with loops; each is proved equal to a function on values, and the results are proved about that function.
`Wrappers`, `Bits`, `Text` and `Decimal` hold what the others share. `dafny verify dfyconfig.toml` checks everything.

The clock, timeouts drawn at random, failures of stores and transports, hash functions, the Z3 process and the parser
of its output are parameters: every statement holds for all their values.

## Where the code does less than one might expect

- The result of a comparison has no width, so a valid program that uses it as a number (an `eqz` of a comparison, a sum
  of two) is refused. `SymbolicProgress.StepSucceedsExactly` says that this is the only valid step refused, and
  `SymbolicProgress.ReportExactly` which requests are reported.
- A term can be led by two nodes one after the other: a leader that loses its quorum clears its vote without leaving
  the term (coordination.go:404-408, 539-547). `RaftRerun.TermLedTwice` gives such a run. At any one moment there is at
  most one leader per term (`RaftSafety.ElectionSafety`). A later leader of a term differs from an earlier one exactly
  when the earlier one granted it its vote (`RaftSafety.LaterLeader`), which takes a tick on which the earlier one's
  quorum had been missing for long enough (`RaftReign.VotesAwayOnlyAfterStepDown`); a term whose leader has no such tick
  has one leader over the whole run (`RaftReign.OneLeaderEver`).
- Passes decide from listings and authors from what they read, and neither looks again before writing. So revisions can
  go back: `FederationInterleaving.NeverRegressesExactly` says exactly when (some commit wrapped past 2^64-1, or between
  a write's reading of its target and the write itself another write put a newer revision there), and the `Overwrites`
  lemmas of `FederationSerial` give a case of each kind: a pull and a push over an authored policy, a commit over a
  pulled one, and a pull over what another pass pushed.
- For the same reason one failure-free pass by each region over all others does not always converge when the passes
  overlap: in `FederationOverlap.OverlapDiverges` three regions make six such passes and one of them is left at version
  2 of 3. `FederationOverlap.ConvergesExactly` says exactly when overlapping passes converge: every overtaken write is
  followed by one that puts the newest revision there. When none is overtaken they always do
  (`FederationOverlap.ConvergesUndisturbed`), and so they do when they do not overlap
  (`FederationConvergence.OnePassEach`).
- Two regions that hold one version and timestamp of a policy with different contents never exchange them:
  `FederationConvergence.StoresAgree` says exactly when stores end up equal.
- The order of virtual nodes with equal hashes is left open by the sort, and with it the owner of the keys before them:
  `Ring.OwnerDetermined` says exactly which keys have an owner that depends on the members and not on the history.
- A half-open breaker always has a probe in flight, so its second admission branch (circuitbreaker.go:123-124) is never
  taken, and a probe that times out below the threshold leaves it rejecting everything
  (`CircuitBreaker.HalfOpenUntilResolved`).
- Interpolated percentiles are not confined to the observed range, at either end: for one sample of 6 s the 1st
  percentile is 5.05 s and the median 7.5 s (`Latency.MedianAboveMaximum`). `PercentileRange.RangeExactly` says exactly
  for which histograms percentiles stay in range and never decrease on all of [0, 1];
  `PercentileRange.AtMostMaximum` and `PercentileRange.AtLeastMinimum` say it percentile by percentile.

## Model

| member | source | states |
|---|---|---|
| `SymbolicExecutor.Executor.Run` | internal/verify/symbolic.go:366-423 | The breadth-wise loop over a list of states returns, with the same counters or the same failure, the concatenation of running each state through the whole program on its own |
| `SymbolicExecutor.Executor.Advance` | internal/verify/symbolic.go:368-419 | One instruction over all states is the concatenation of the single-state steps, failing at the first that fails |
| `SymbolicExecutor.Executor.AdvanceState` | internal/verify/symbolic.go:369-418 | Depth limit, fork at `if`, and ordinary step of one state, including every error |
| `SymbolicExecutor.Executor.Fork` | internal/verify/symbolic.go:383-412 | Exploration limit, solver check and pruning of one arm |
| `SymbolicExecutor.BreadthFirst` | internal/verify/symbolic.go:366-423 | Advancing all states by one instruction and then running the rest is running each state to the end |
| `SymbolicExecutor.EachAppend` | internal/verify/symbolic.go:366-423 | Running a concatenation of state lists gives the concatenation of the separate outcomes, counters added |
| `SymbolicReport.BuildLocals` | internal/verify/symbolic.go:145-170 | Locals exist exactly when all parameter and local types are supported integers: given arguments as constants, other parameters as symbols, the rest zero |
| `SymbolicReport.AssemblePaths` | internal/verify/symbolic.go:172-199 | The reported paths are the terminal states that are feasible or not pruned, in order, with rendered outputs |
| `SymbolicReport.Run` | internal/verify/symbolic.go:145-200 | Locals, execution and report of the whole call, or an error for the same functions, depth settings and runs |
| `SymbolicInvariants.EveryTerminal` | internal/verify/symbolic.go:366-423 | Any relation kept by single steps holds between the start state and every terminal state of any program |
| `SymbolicInvariants.TerminalIsReached` | internal/verify/symbolic.go:366-423 | The terminal states of a run are among the states that chains of steps reach |
| `SymbolicInvariants.PathsAccountedFor` | internal/verify/symbolic.go:172-199 | Every successful run has 2*(paths+pruned) = explored+1, so explored is odd and at most 4095 and paths plus pruned at most 2048, whatever the pruning and depth settings |
| `SymbolicInvariants.DepthBounded` | internal/verify/symbolic.go:366-423 | No terminal state executed more instructions than the effective depth limit |
| `SymbolicInvariants.StepKeepsPath` | internal/verify/symbolic.go:366-423 | Each step counts one instruction and extends, never drops, the path's constraints |
| `SymbolicSoundness.PathsPartitionArguments` | internal/verify/symbolic.go:366-423 | For every argument vector exactly one reported path has all constraints true, and its output denotes the concrete result, if the concrete execution finishes within the depth limit; otherwise none has |
| `SymbolicSoundness.ValidatedExecution` | internal/verify/symbolic.go:145-198 | For executions that pass the width checks of validation the one live path shows every result at its exact value |
| `SymbolicSoundness.StepSimulates` | internal/verify/symbolic.go:452-538 | A symbolic step that succeeds is matched by the concrete step of the same instruction |
| `SymbolicSoundness.RunTracks` | internal/verify/symbolic.go:366-423 | From related states, the live terminal state of a run is the concrete final machine |
| `SymbolicSoundness.DeadStaysDead` | internal/verify/symbolic.go:383-412 | A path with a false constraint never leads to a live one |
| `SymbolicSoundness.FoldingAgrees` | internal/verify/symbolic.go:475-530 | In every state a chain of steps reaches from the start, inside arms and on paths later cut, pruned or abandoned, each known integer is in signed range and equals its expression under every assignment, and every expression is well sorted |
| `SymbolicSoundness.StepKeepsSane` | internal/verify/symbolic.go:452-538 | Each step keeps every value well sorted and correctly folded |
| `SymbolicSoundness.CompareFolds` | internal/verify/symbolic.go:589-618 | Go's folded comparison, the SMT relation and the WebAssembly comparison agree for all operands at both widths, signed and unsigned |
| `SymbolicSoundness.ArithFolds` | internal/verify/symbolic.go:540-554 | Folding through uint64 add, sub and mul gives the wrapped result at the operand width, and so does the SMT operator |
| `SymbolicSoundness.ConditionMeaning` | internal/verify/symbolic.go:284-301 | The branch condition rendered for a value is true exactly when the value is non-zero |
| `SymbolicPruning.PruningPreservesMeaning` | internal/verify/symbolic.go:383-412 | With a decisive solver, whenever the unpruned run succeeds the pruned one does, reporting exactly its feasible paths in the same order with the same constraints and outputs, exploring no more |
| `SymbolicPruning.AssemblePrunes` | internal/verify/symbolic.go:177-198 | Assembling only feasible states yields exactly the feasible paths and drops nothing more |
| `SymbolicPruning.InfeasibleStays` | internal/verify/symbolic.go:383-412 | An unsatisfiable state has no satisfiable descendant |
| `SymbolicProgress.StepSucceedsExactly` | internal/verify/symbolic.go:452-538 | An instruction succeeds symbolically exactly when the concrete step does and no comparison result is an operand where a number is needed; steps of validated code fail for no other reason |
| `SymbolicProgress.EffectOfStep` | internal/verify/symbolic.go:452-538 | Whether an instruction succeeds, and the widths it leaves, follow from the widths of locals and stack by its typing rule |
| `SymbolicProgress.RunAsSurveyed` | internal/verify/symbolic.go:366-423 | Without pruning, whether a run fails, how many branches it explores and the widths it ends with are those of typing every path within the depth limit |
| `SymbolicProgress.ReportExactly` | internal/verify/symbolic.go:92-200 | Without pruning, a request is reported exactly when its depth is between 0 and 256, its types are supported, every path types within the depth limit, branch limit and result counts, and the solver answers for every path |
| `SymbolicProgress.SensibleIsReported` | internal/verify/symbolic.go:92-200 | With a solver that answers, rightly or not, every such request is reported, pruned or not |
| `SymbolicProgress.EveryCallIsReported` | internal/verify/symbolic.go:92-200 | Total correctness: such a request has a report, and every call that ends within the depth limit (100 by default) makes exactly one path of it true, which shows the result |
| `SymbolicProgress.RunLeaner` | internal/verify/symbolic.go:396-406 | Pruning turns no success into a failure whatever the solver answers, keeps only states of the unpruned run in order, and explores no more |
| `SymbolicProgress.AssemblesExactly` | internal/verify/symbolic.go:172-198 | A report is assembled exactly when every terminal question is answered and every path kept has its results |
| `SymbolicProgress.ReportStands` | internal/verify/symbolic.go:430-449 | A report rests on no question the solver left open: answering those in any way leaves it the same |
| `SymbolicProgress.PathsJustified` | internal/verify/symbolic.go:430-449 | The verdict shown with a path is the answer of the solver to its constraints, and a pruned report shows only sat |
| `SymbolicProgress.GivenIsNumbers` | internal/verify/symbolic.go:145-170 | When every argument is given, every output of every path is a number |
| `SymbolicProgress.StepKeepsKnown` | internal/verify/symbolic.go:452-538 | Folding is complete: an instruction on known values leaves only known values |
| `SymbolicProgress.RendersDeclared` | internal/verify/symbolic.go:326-347 | A known value is shown at the declared width, an i32 result as the int32 congruent to it; others as their terms |
| `Leb128.ReadU32Loop` | internal/verify/symbolic.go:975-988 | The loop with its byte limit and uint32 shifts computes the recursive decoding |
| `Leb128.ReadS64Loop` | internal/verify/symbolic.go:990-1008 | The loop with sign extension computes the recursive decoding |
| `Leb128.ReadsEncodedU32` | internal/verify/symbolic.go:975-988 | Reading the unsigned LEB128 encoding of any u32, at any place in any input, gives it back and stops right after it |
| `Leb128.ReadsEncodedS64` | internal/verify/symbolic.go:990-1008 | The same for the signed encoding of any i64 |
| `WasmParser.ParseInstructions` | internal/verify/symbolic.go:926-974 | The loop with its shared counter and nesting limit is the recursive parse |
| `WasmParser.ParseOperands` | internal/verify/symbolic.go:940-970 | Immediates and arms of one instruction, with every error |
| `WasmParser.ParseLocalsLoop` | internal/verify/symbolic.go:903-912 | The declared local groups are expanded in order within the local limit |
| `WasmParser.ParseCodeEntry` | internal/verify/symbolic.go:895-921 | A code entry parses to its locals and body, or fails |
| `WasmParser.CodeRoundTrip` | internal/verify/symbolic.go:895-974 | A printed code entry parses back to exactly its locals and instruction tree when its groups, locals, instructions and nesting are within their limits, and is refused otherwise |
| `WasmParser.EntryIsWhole` | internal/verify/symbolic.go:913-920 | An entry with bytes after its end, or ended by `else`, is refused |
| `WasmParser.SecondElseRefused` | internal/verify/symbolic.go:940-962 | The second arm of an `if` must end with `end` |
| `WasmParser.Immediates` | internal/verify/symbolic.go:963-966 | The three local instructions carry an index, the two constants a value, all others nothing |
| `WasmParser.ParsesPrinted` | internal/verify/symbolic.go:926-974 | At any place in any input, a printed body parses to itself, consuming exactly its bytes, or is refused exactly when a budget is exceeded |
| `WasmParser.ParseSound` | internal/verify/symbolic.go:926-974 | Whatever parses is well formed, counted exactly and within both budgets |
| `WasmParser.ParsedCodeReprints` | internal/verify/symbolic.go:895-921 | Every accepted entry prints, locals and all, to bytes that parse to it again |
| `RaftNode.Node.constructor` | internal/distributed/coordination/coordination.go:189-224 | A new node, with any peers, follows in term 0 with no vote and even loads; timing fields that are not positive take their defaults, and the members are the node and its peers in order, as often as they are given |
| `RaftNode.Node.Receive` | internal/distributed/coordination/coordination.go:270-282 | A message is queued behind the others |
| `RaftNode.Node.TickOnce` | internal/distributed/coordination/coordination.go:285-300 | A tick handles the whole inbox in order, then the timers, and sends exactly what these produced |
| `RaftNode.Node.OnRequestVote` | internal/distributed/coordination/coordination.go:439-464 | Vote handling, the step to a newer term included |
| `RaftNode.Node.OnRequestVoteResp` | internal/distributed/coordination/coordination.go:466-480 | Counting of distinct votes and the change to leader at a majority |
| `RaftNode.Node.OnAppendEntries` | internal/distributed/coordination/coordination.go:482-511 | Heartbeats accepted or refused by term |
| `RaftNode.Node.OnAppendEntriesResp` | internal/distributed/coordination/coordination.go:513-526 | Acknowledgements remembered by the leader of the term |
| `RaftNode.Node.StepTimersNow` | internal/distributed/coordination/coordination.go:388-412 | Election timeout, heartbeats, and stepping down after the quorum was missed long enough |
| `RaftNode.Node.StartElectionNow` | internal/distributed/coordination/coordination.go:416-436 | A candidacy in a new term with a request to every peer |
| `RaftNode.Node.BroadcastHeartbeat` | internal/distributed/coordination/coordination.go:551-564 | One heartbeat per peer |
| `RaftNode.Node.CheckQuorum` | internal/distributed/coordination/coordination.go:566-574 | Whether a majority acknowledged within the window |
| `RaftNode.Node.Assign` | internal/distributed/coordination/coordination.go:348-358 | Only a leader assigns, to the next member in turn, counted for that member; unless a peer is listed twice, any two members' loads stay within one of each other |
| `RaftSafety.HandleIsSafe` | internal/distributed/coordination/coordination.go:439-526 | Every message handler is a safe step: terms do not fall, grants go to one candidate per term, votes counted are votes received |
| `RaftSafety.TimersAreSafe` | internal/distributed/coordination/coordination.go:388-436 | So is every timer step |
| `RaftSafety.RunKeepsInv` | internal/distributed/coordination/coordination.go:374-583 | The cluster invariant holds in every state of every run |
| `RaftSafety.ElectionSafety` | internal/distributed/coordination/coordination.go:416-478 | At every point of every run, under loss, delay, duplication and reordering, no two nodes lead the same term |
| `RaftSafety.VotesOncePerTerm` | internal/distributed/coordination/coordination.go:439-464 | Over a whole run a node grants at most one other candidate per term, and follows in that term from then on |
| `RaftSafety.LaterLeader` | internal/distributed/coordination/coordination.go:539-547 | Leaders of one term at two points of a run differ exactly when the first granted the second its vote in that term |
| `RaftReign.VotesAwayOnlyAfterStepDown` | internal/distributed/coordination/coordination.go:404-408 | In every run, a leader that has granted another node a vote in its term has since had a tick in that term without a quorum on which the misses reached QuorumLossTicks |
| `RaftReign.OneLeaderEver` | internal/distributed/coordination/coordination.go:388-412 | A term whose leader has no such tick has one leader over the whole run |
| `RaftReign.ReignLasts` | internal/distributed/coordination/coordination.go:439-547 | Until such a tick a leader keeps its own vote of the term and sends none of that term, whatever it receives |
| `RaftSafety.MajoritiesMeet` | internal/distributed/coordination/coordination.go:583-583 | Two majorities of the members share a member |
| `RaftStepDown.BoundedStepDown` | internal/distributed/coordination/coordination.go:388-412 | If the peers that acknowledge during QuorumAckTicks+QuorumLossTicks ticks, with the leader, are no majority, the node has stopped leading the term by the end of them |
| `RaftStepDown.NeverLeadsAgain` | internal/distributed/coordination/coordination.go:539-547 | A node that has stopped leading a term never leads it again, whatever it receives |
| `RaftReign.StepsDownInRun` | internal/distributed/coordination/coordination.go:388-412 | In every run, a leader that within QuorumAckTicks+QuorumLossTicks of its own ticks is reached by acknowledgements of no majority has stopped leading its term |
| `RaftReign.RunWellKept` | internal/distributed/coordination/coordination.go:285-300 | In every run every leader has acknowledgements only from the past and a non-negative count of misses |
| `RaftStepDown.FadesAway` | internal/distributed/coordination/coordination.go:566-574 | During the window the node is retired or has missed the quorum on every tick since the acknowledgements aged |
| `RaftStepDown.TickWellKept` | internal/distributed/coordination/coordination.go:285-300 | Acknowledgement times never lie in the future and miss counts only rise while leading |
| `RaftRerun.TermLedTwice` | internal/distributed/coordination/coordination.go:405-408 | A run of three members in which one leads term 1, steps down, votes for its rival in term 1, and the rival leads term 1 |
| `RaftRerun.MembersAgree` | internal/distributed/coordination/coordination.go:639-672 | The members of that run form a cluster the safety results apply to |
| `RaftTenure.LeadsExactly` | internal/distributed/coordination/coordination.go:397-411 | Over ticks that bring no newer term and no heartbeat of its term, a leader leads on exactly as long as the ticks on which peers heard from within QuorumAckTicks, with itself, are no majority never reach QuorumLossTicks in a row; its miss count is that number |
| `RaftTenure.KeepsLeading` | internal/distributed/coordination/coordination.go:566-574 | A leader that after every tick has recently received acknowledgements from a majority, itself included, still leads and has missed none |
| `RaftTenure.LeadsInRun` | internal/distributed/coordination/coordination.go:397-411 | Both hold of a leader inside every run of the cluster, by what it took from its inbox |
| `RaftTenure.RunIsTicks` | internal/distributed/coordination/coordination.go:285-300 | Between two points of a run a node does what its ticks make of what it received |
| `RaftTenure.HandleAllQuiet` | internal/distributed/coordination/coordination.go:513-526 | Such an inbox leaves the leader as it was, except that exactly the peers that acknowledged are recorded at this tick |
| `RaftElection.ElectsExactly` | internal/distributed/coordination/coordination.go:388-396 | A follower that meets no newer term and no request for a vote it could give stands for election exactly when its election timeout passes without a heartbeat; until then it keeps term and vote |
| `RaftElection.WinsExactly` | internal/distributed/coordination/coordination.go:466-480 | A candidate that meets no newer term and no leader leads exactly when the distinct votes it has received are a majority |
| `RaftElection.WinnerAnnounces` | internal/distributed/coordination/coordination.go:466-480 | It then announces itself to every peer on the same tick |
| `RaftElection.StandsForElection` | internal/distributed/coordination/coordination.go:416-436 | A candidacy is the next term with its own vote, a fresh timeout and one request per peer; a node without peers leads at once |
| `RaftElection.HeartbeatExchange` | internal/distributed/coordination/coordination.go:482-526 | A heartbeat and its answer: a peer of no newer term follows the leader and waits anew, and counts as heard from when the answer arrives; a peer of a newer term unseats the leader |
| `RaftElection.VoteExchange` | internal/distributed/coordination/coordination.go:439-480 | A request and its answer: the vote is given and counted exactly when the peer is of an older term, or of this one with its vote free or already the candidate's; a peer of a newer term unseats the candidate |
| `RaftElection.NewerTermUnseats` | internal/distributed/coordination/coordination.go:439-526 | Any message of a newer term makes its receiver a follower of that term whose wait begins anew |
| `RaftElection.OlderTermRefused` | internal/distributed/coordination/coordination.go:439-526 | A message of an older term changes nothing, and a request is refused with the newer term |
| `RaftElection.StepDownWaits` | internal/distributed/coordination/coordination.go:404-408 | A leader that loses its quorum names nobody, has its vote back and waits a full timeout |
| `RaftElection.LeadersAreKnownRightly` | internal/distributed/coordination/coordination.go:482-511 | In every run a node calls itself leader exactly while it leads, and any other node it names has announced itself in that term |
| `Federation.MemoryStore.constructor` | internal/federation/policy.go:104-106 | A new store is empty |
| `Federation.MemoryStore.Get` | internal/federation/policy.go:109-117 | The policy filed under the id, if any |
| `Federation.MemoryStore.Put` | internal/federation/policy.go:120-128 | Files a policy under its id and refuses a missing one |
| `Federation.MemoryStore.List` | internal/federation/policy.go:139-150 | Every policy exactly once, ordered by id |
| `Federation.Replicator.Targets` | internal/federation/replicator.go:161-184 | The allowlist without repetitions, or the healthy peers; never the region itself |
| `Federation.Replicator.ReconcilePolicy` | internal/federation/replicator.go:237-276 | Decided from the two listed revisions whatever the stores hold now: the newer one is copied to the other side and counted, or the failure is |
| `Federation.Replicator.ReconcileRegion` | internal/federation/replicator.go:201-232 | One pass turns both stores into the specified pair whatever fails, succeeds exactly when nothing needed failed, counts one error for a failed listing or unknown region and otherwise one per failed copy, and advances pushed+pulled+skipped+errors by the number of ids in the union |
| `Federation.Replicator.Reconcile` | internal/federation/replicator.go:189-198 | A pass over the targets acts on all stores as the single passes in turn; a failing region does not stop the others |
| `Federation.Author.Put` | internal/federation/replicator.go:430-460 | An accepted write stores the given body under the id with this region as origin, the given time and version 1 or the old version plus 1 modulo 2^64, and changes no other id; an empty id is refused |
| `Federation.AuthoringAdvances` | internal/federation/replicator.go:430-451 | The authored revision is strictly newer exactly when the old version is not the last one |
| `Federation.ReconcileJoins` | internal/federation/replicator.go:237-276 | A clean pass leaves both sides at the newer of the two revisions, each holding one of the two policies |
| `Federation.ReconcileNeverRegresses` | internal/federation/replicator.go:237-276 | No pass lowers a revision on either side, whatever fails |
| `Federation.PassSucceedsExactly` | internal/federation/replicator.go:189-198 | A pass reports success exactly when every target is a known region and the pass over it was clean in its turn |
| `FederationConvergence.EventLowers` | internal/federation/replicator.go:430-451 | With passes and authored writes taken as single events, the only one that lowers a revision anywhere is a write at the last version, and it lowers that one |
| `FederationConvergence.GossipConverges` | internal/federation/replicator.go:189-232 | For passes that do not overlap: if every region hears from every other, directly or through others, each ends at the revision that was newest at the start, for every policy and whatever fails in between |
| `FederationConvergence.ConvergenceNeedsGossip` | internal/federation/replicator.go:189-232 | For passes that do not overlap: a schedule of failure-free meetings brings all regions to the newest revision from all initial stores exactly when every region hears from every other |
| `FederationConvergence.OnePassEach` | internal/federation/replicator.go:189-232 | For passes that do not overlap: one failure-free pass by each region over all others, in any order of regions and targets, leaves all at the revision that was newest at the start |
| `FederationConvergence.ConvergedAgree` | internal/federation/replicator.go:282-297 | Converged regions hold one and the same revision |
| `FederationConvergence.StoresAgree` | internal/federation/replicator.go:282-297 | After such a schedule, its passes not overlapping, all stores are the same map exactly when no newest revision was held with two contents |
| `FederationConvergence.MeetingsInventNothing` | internal/federation/replicator.go:237-276 | For passes that do not overlap: every policy held at the end was held for that id by some region at the start |
| `FederationConvergence.NewestKeepsIts` | internal/federation/replicator.go:282-297 | For passes that do not overlap: a region that starts with the newest revision keeps exactly that policy |
| `FederationConvergence.WriteIsHeld` | internal/federation/replicator.go:430-460 | A write changes one policy of one region, to the body, author, time and version of the write |
| `FederationConvergence.WriteReachesAll` | internal/federation/replicator.go:189-276 | For passes that do not overlap: after a write, meetings through which all regions hear from each other leave every region with exactly the written policy if and only if no region was ahead of it and none held another policy of the same revision |
| `FederationConvergence.PassIsMeetings` | internal/federation/replicator.go:189-198 | A replicator's pass does to all stores what its pairwise meetings do |
| `FederationConvergence.EveryPairMeets` | internal/federation/replicator.go:161-198 | Once every two regions have met, in any order and without overlap, every region has heard from all |
| `FederationInterleaving.StepLowers` | internal/federation/replicator.go:237-276 | With listings, reads and single writes as separate steps, a step lowers a revision exactly when it writes there a policy older than what is held at that moment |
| `FederationInterleaving.NeverRegressesExactly` | internal/federation/replicator.go:201-276 | No revision goes back anywhere in a run of interleaved passes and authors exactly when no commit wraps and no write is overtaken by a newer one between reading its target and writing it |
| `FederationInterleaving.LoweredOnlyIfOvertaken` | internal/federation/replicator.go:201-276 | In every interleaving a write that lowers a revision either has a wrapped version, or a newer revision was written to its place since that was read |
| `FederationInterleaving.RunNeverRegresses` | internal/federation/replicator.go:201-276 | Between any two points of any run with no wrapped and no overtaken write between them, no revision goes back |
| `FederationInterleaving.OvertakenLowers` | internal/federation/replicator.go:237-276 | The first overtaken write of a run in which nothing has gone back lowers what its target holds |
| `FederationInterleaving.WrappedLowers` | internal/federation/replicator.go:430-451 | So does a commit whose version wrapped |
| `FederationInterleaving.AdvancesWhatWasRead` | internal/federation/replicator.go:430-451 | Every write advances what its target held when it was read, except a draft whose version wrapped |
| `FederationInterleaving.CommitsOnce` | internal/federation/replicator.go:445-448 | However steps interleave, a draft is stored once |
| `FederationSerial.UninterruptedPass` | internal/federation/replicator.go:201-232 | The two listings of a pass followed by its copies, for every order of the union of ids and with any failing copies, have the effect of one meeting when nothing comes in between |
| `FederationSerial.UninterruptedWrite` | internal/federation/replicator.go:430-460 | An author's read followed at once by its commit has the effect of one authored write |
| `FederationSerial.EventPerformed` | internal/federation/replicator.go:201-232 | Every event, the failing ones included, has such a piece, with the effect of the event |
| `FederationSerial.SerialRun` | internal/federation/replicator.go:189-198 | Every run of meetings and authored writes is a run of these steps, one piece after the other, each piece the operations of its event |
| `FederationSerial.OvertakenIsLost` | internal/federation/replicator.go:237-276 | For every state and every two pending writes to one place, if the newer is made first the later one replaces it |
| `FederationSerial.PullOverwritesAuthor` | internal/federation/replicator.go:266-271 | A case: a pull over what the local region authored since the listing |
| `FederationSerial.PushOverwritesAuthor` | internal/federation/replicator.go:260-265 | A case: a push over what the peer authored since the listing |
| `FederationSerial.CommitOverwritesPull` | internal/federation/replicator.go:434-448 | A case: an author over what a pass pulled since the read |
| `FederationSerial.PullOverwritesPush` | internal/federation/replicator.go:266-271 | A case without authors: a pull over what another region pushed since the listing |
| `FederationSerial.ReachesListed` | internal/federation/replicator.go:202-211 | The first three cases start from a reachable state |
| `FederationSerial.ReachesTwoPasses` | internal/federation/replicator.go:202-211 | So does the fourth |
| `FederationOverlap.ConvergesExactly` | internal/federation/replicator.go:189-276 | For passes that overlap in any way and fail anywhere, with a completed pass between every two regions: all regions end at the revision that was newest at the start exactly when every overtaken write is followed by a write of the newest revision to the same place |
| `FederationOverlap.ConvergesUndisturbed` | internal/federation/replicator.go:189-276 | Such passes converge when none of their writes is overtaken |
| `FederationOverlap.OverlapDiverges` | internal/federation/replicator.go:189-276 | One failure-free pass by each of three regions over both others after which one region is left behind |
| `FederationOverlap.HeldNewest` | internal/federation/replicator.go:201-276 | A completed pass with a region that starts with the newest revision means that the other region held it at some moment, whatever else overlapped |
| `FederationOverlap.NothingNew` | internal/federation/replicator.go:237-276 | At every moment of overlapping passes, what a region holds for an id was held for it by some region at the start |
| `FederationOverlap.NewestStays` | internal/federation/replicator.go:237-297 | A region that starts with the newest revision keeps exactly that policy through all overlapping passes |
| `FederationOverlap.CopyOrigin` | internal/federation/replicator.go:237-276 | What a copy writes was held by some region before, and is strictly newer than what its target held when that was listed |
| `Ring.HashRing.constructor` | internal/distributed/sharding/ring.go:54-75 | An empty ring with the given number of virtual nodes, or 150 for a non-positive one |
| `Ring.HashRing.AddNode` | internal/distributed/sharding/ring.go:85-97 | Adds exactly the node's points and leaves the list sorted; a present node changes nothing |
| `Ring.HashRing.RemoveNode` | internal/distributed/sharding/ring.go:106-118 | Removes exactly the node's points, keeping the order of the rest |
| `Ring.FilterInPlace` | internal/distributed/sharding/ring.go:111-117 | Reading and writing one buffer, what is kept is the filtered original |
| `Ring.Search` | internal/distributed/sharding/ring.go:134-136 | Bisection finds the least index at or above the hash |
| `Ring.HashRing.Lookup` | internal/distributed/sharding/ring.go:128-142 | The owner is the node of a point with the least hash at or above the key's, or the least of all; nothing is found exactly when there are no members |
| `Ring.HashRing.MigrationKeys` | internal/distributed/sharding/ring.go:174-205 | Exactly the keys whose owner RemoveNode would change to another node, with that node |
| `Ring.HistoryValid` | internal/distributed/sharding/ring.go:85-118 | After any sequence of additions and removals the list is sorted and holds each point of each member as often as it was placed, and nothing else |
| `Ring.OwnerIsSuccessor` | internal/distributed/sharding/ring.go:128-142 | The first position at or after a hash is at the successor point, defined on the members alone |
| `Ring.HistoryIndependent` | internal/distributed/sharding/ring.go:85-142 | Two histories that end in the same members give every undisputed key the same owner |
| `Ring.OwnerDetermined` | internal/distributed/sharding/ring.go:85-142 | All histories that end in the same members give a key the same owner exactly when the points at its successor position are one node's |
| `Ring.ArrangementHasHistory` | internal/distributed/sharding/ring.go:85-118 | Every sorted arrangement of the members' points is the end of some history of additions |
| `Ring.TieFreeIsUndisputed` | internal/distributed/sharding/ring.go:94-96 | Without hash ties between nodes every position is undisputed |
| `Ring.RemovalMovesOnlyItsKeys` | internal/distributed/sharding/ring.go:106-142 | Removing a node changes the owner of exactly the keys it owned, ties or not |
| `Ring.HandsOverExactly` | internal/distributed/sharding/ring.go:174-205 | A removal hands over exactly the keys of the removed node, each to a member that remains |
| `Ring.RingPoints` | internal/distributed/sharding/ring.go:90-93 | A ring holds exactly the points of its members, point i at the hash of the id, "#" and the decimal of i |
| `Ring.OwnsItsNames` | internal/distributed/sharding/ring.go:90-93 | A node owns the keys that name its points, unless another node has a point there |
| `Ring.AddingMovesKeysOnlyToIt` | internal/distributed/sharding/ring.go:85-142 | Adding a node moves undisputed keys only to it |
| `Ring.AddThenRemove` | internal/distributed/sharding/ring.go:85-142 | Adding and removing a node restores every undisputed owner |
| `DecisionCache.Cache.constructor` | internal/symbolic/cache/cache.go:58-67 | An empty cache; a negative size means 1000 |
| `DecisionCache.Cache.GetByHash` | internal/symbolic/cache/cache.go:92-104 | A hit moves the entry to the front and is counted, a miss only counted; map and list keep agreeing |
| `DecisionCache.Cache.SetByHash` | internal/symbolic/cache/cache.go:113-135 | Overwrites or inserts in front, evicting the last entry when over capacity; map and list keep agreeing |
| `DecisionCache.ExactlyLru` | internal/symbolic/cache/cache.go:92-135 | Over every history and capacity, a decision is found for a hash exactly when it was set or hit with fewer than capacity distinct others set or hit since, and it is the one last set |
| `DecisionCache.HoldsMostRecent` | internal/symbolic/cache/cache.go:92-135 | The entries are the most recently used hashes, in order of use, cut to capacity |
| `DecisionCache.HoldsLastSet` | internal/symbolic/cache/cache.go:120-126 | Whatever is held is what was last set |
| `DecisionCache.Conservation` | internal/symbolic/cache/cache.go:92-135 | Hits are the gets that found their hash, hits plus misses all gets, and entries plus evictions the insertions |
| `CachedSolver.BuildSMT2` | internal/z3/z3.go:161-186 | The method writes the program, with the names of the model in sorted order |
| `CachedSolver.ProgramUnique` | internal/z3/z3.go:168-177 | The program does not depend on the order in which the model map is visited |
| `CachedSolver.ProgramStatesQuery` | internal/z3/z3.go:161-186 | A program is the option for cores exactly when the constraints contain ":named", one declaration for each name of the model in sorted order with its sort, exactly the constraints, and only then check-sat and what follows |
| `CachedSolver.QueryDetermined` | internal/z3/z3.go:161-186 | Over one model two different constraint texts never give the same program |
| `CachedSolver.SortsByHint` | internal/z3/z3.go:189-220 | The sort of a declaration: bit-vectors and arrays by their prefixes, other names as they are, else by the type of the value |
| `CachedSolver.OutputDecides` | internal/z3/z3.go:84-115 | Output decides however Z3 exited; a failed exit without output is an error |
| `CachedSolver.Solver.SolveConstraints` | internal/z3/z3.go:64-115 | One query with its cache effect: nothing on a passed deadline, a hit, or a run of Z3 of which only decisions are stored |
| `CachedSolver.CacheIsTransparent` | internal/z3/z3.go:64-132 | At every capacity, in all runs of queries that buildSMT2 can make, with lookups and stores of concurrent queries interleaved and deadlines passing anywhere, each query that meets its deadline is answered as Z3 alone would, exactly when the cache is disabled or the hash never joins a decided program with one answered differently |
| `CachedSolver.InjectiveSeparates` | internal/symbolic/cache/cache.go:81-84 | A hash without collisions among such programs meets that condition |
| `CachedSolver.PlaysFaithfully` | internal/z3/z3.go:97-113 | After every interleaving, every decision held is what Z3 says of every program with that hash, every answer given in time is right, and late queries are unknown unless the cache had the answer of Z3 |
| `CachedSolver.LookIsFaithful` | internal/z3/z3.go:65-72 | A lookup keeps this, and a hit in time is the answer of Z3 |
| `CachedSolver.SolvingIsFaithful` | internal/z3/z3.go:74-115 | So does solving after a miss, whatever the cache became in between, and its answer in time is that of Z3 |
| `CachedSolver.ServedAtOnce` | internal/z3/z3.go:64-115 | A lookup followed at once by its solving is one uninterrupted query |
| `Decimal.ParsesPrinted` | internal/cache/distributed/redis.go:284-303 | Every int64 reads back as it was written |
| `Decimal.ParsesExactly` | internal/cache/distributed/redis.go:284-303 | What reads as a number is at most one sign and decimal digits, within int64; a plus changes nothing |
| `Resp.EncodeCommand` | internal/cache/distributed/redis.go:241-255 | The loop writes the specified array of bulk strings |
| `Resp.Reader.ReadReply` | internal/cache/distributed/redis.go:265-322 | The reader returns and leaves what the recursive reading does, on every input, malformed ones included |
| `Resp.CommandRoundTrip` | internal/cache/distributed/redis.go:241-255 | A command followed by anything reads back as exactly its arguments, whatever bytes they hold, leaving exactly what follows |
| `Resp.StreamRoundTrip` | internal/cache/distributed/redis.go:241-322 | A stream of commands decodes one by one in order |
| `Resp.ReadsRendered` | internal/cache/distributed/redis.go:257-322 | Every reply the wire can carry, nested arrays included, reads back whole |
| `Resp.SimpleRoundTrip` | internal/cache/distributed/redis.go:279-280 | A simple string survives exactly when it holds no line feed |
| `Resp.ReadExtends` | internal/cache/distributed/redis.go:265-322 | What a successful read returns does not depend on what comes later, which is left as it is |
| `Resp.PrefixFree` | internal/cache/distributed/redis.go:265-322 | No proper prefix of a complete reply is a reply |
| `Resp.ErrorIsReported` | internal/cache/distributed/redis.go:281-282 | A reply that starts as an error never reads as a success, and reads as exactly that error when it fits on its line |
| `Resp.SuccessIsTagged` | internal/cache/distributed/redis.go:278-321 | A successful read starts with one of the four tags, the one of what is returned |
| `Resp.ErrorInArray` | internal/cache/distributed/redis.go:302-318 | An error among the items of an array, at any place, is the error of the array |
| `Resp.NegativeIsNil` | internal/cache/distributed/redis.go:289-309 | A negative length, of a bulk string or an array, is the nil reply |
| `Resp.TruncatedFails` | internal/cache/distributed/redis.go:265-322 | A reply cut short anywhere does not read as a success |
| `Resp.LineIsConsumed` | internal/cache/distributed/redis.go:266-272 | A line is taken with its line feed, well formed or not |
| `Resp.ShortBulk` | internal/cache/distributed/redis.go:297-300 | A bulk string shorter than announced is an error |
| `CircuitBreaker.WithDefaults` | internal/circuitbreaker/circuitbreaker.go:83-98 | Each field is kept when positive, and is otherwise 30 s, 60 s, 3 and 90 s |
| `CircuitBreaker.Breaker.constructor` | internal/circuitbreaker/circuitbreaker.go:83-98 | A new breaker is closed with an empty history |
| `CircuitBreaker.Breaker.Allow` | internal/circuitbreaker/circuitbreaker.go:105-127 | Admission and the change to half open |
| `CircuitBreaker.Breaker.RecordTimeout` | internal/circuitbreaker/circuitbreaker.go:133-157 | The new state after a timeout in each state |
| `CircuitBreaker.Breaker.RecordSuccess` | internal/circuitbreaker/circuitbreaker.go:162-176 | The new state after a success in each state |
| `CircuitBreaker.Breaker.PruneStamps` | internal/circuitbreaker/circuitbreaker.go:203-212 | The loop drops exactly the leading stamps before the cutoff |
| `CircuitBreaker.DecidesByRecount` | internal/circuitbreaker/circuitbreaker.go:133-212 | Over every chronological history the breaker's state is that of a recount of the full history that keeps no stamps |
| `CircuitBreaker.OpensExactlyOn` | internal/circuitbreaker/circuitbreaker.go:145-150 | A closed breaker opens on an event exactly when it is a qualifying timeout and enough of those after the last recorded success lie in the window ending then |
| `CircuitBreaker.CountsSinceSuccess` | internal/circuitbreaker/circuitbreaker.go:162-176 | While closed, the timeouts that count are those after the last recorded success, whatever trips and probes came before |
| `CircuitBreaker.HalfOpenIsProbing` | internal/circuitbreaker/circuitbreaker.go:105-200 | In every reachable state half open means exactly that a probe is in flight |
| `CircuitBreaker.CoolsDown` | internal/circuitbreaker/circuitbreaker.go:112-118 | No request is admitted within the open duration of any earlier trip |
| `CircuitBreaker.AdmitsExactly` | internal/circuitbreaker/circuitbreaker.go:106-128 | Over every history a request is admitted exactly when a recount of it finds the breaker closed, or open for the open duration |
| `CircuitBreaker.HalfOpenUntilResolved` | internal/circuitbreaker/circuitbreaker.go:119-124 | A half-open breaker stays unchanged, admitting nothing, exactly as long as no success and no qualifying timeout is recorded |
| `Latency.LatencyBucketIndex` | internal/observability/metrics.go:151-159 | The first bucket whose bound is at or above the latency, else the last |
| `Latency.BucketsInMilliseconds` | internal/observability/metrics.go:106-109 | The twelve buckets, from 5 ms to 10 s and above |
| `Latency.RecordLatency` | internal/observability/metrics.go:138-148 | Count, sum, extremes and one bucket advance by the sample |
| `Latency.Collector.Record` | internal/observability/metrics.go:246-288 | The observation goes into its policy's series and no other; without a policy nothing changes |
| `Latency.MergeSeries` | internal/observability/dashboard.go:194-228 | The merge of two series, extremes, buckets and error codes included |
| `Latency.RollUpIsWhole` | internal/observability/dashboard.go:170-228 | However observations are spread over policies and in whatever order these are merged, the roll-up is the series that would have recorded all of them |
| `Latency.SeriesIsOwn` | internal/observability/metrics.go:246-288 | A policy has a series exactly when something was observed for it, and that series records its own observations and no others |
| `Latency.SeriesCounts` | internal/observability/metrics.go:246-288 | Every figure of a series is what its name says over its observations: total, successes and failures, failures by code ("unknown" without one), sums of latencies and instructions, extremes |
| `Latency.ObservedLatencies` | internal/observability/metrics.go:246-288 | The histogram of recorded observations is the histogram of their latencies in order |
| `Latency.SeriesLatencies` | internal/observability/dashboard.go:170-228 | Every collected histogram, and the roll-up of all, is that of the latencies it stands for, so what is shown of histograms below holds of them |
| `Latency.CumulativeBuckets` | internal/observability/dashboard.go:132-148 | Each shown count is the sum of the buckets up to it |
| `Latency.CumulativeIsRank` | internal/observability/dashboard.go:132-148 | That sum is the number of latencies at or below the bound |
| `Latency.Percentile` | internal/observability/metrics.go:165-199 | The loop computes the specified quantile |
| `Latency.PercentileLandsInItsBucket` | internal/observability/metrics.go:175-196 | The answer lies in the first bucket whose bound has enough latencies at or below it |
| `PercentileRange.PercentileAboveBounds` | internal/observability/metrics.go:197-198 | When the rank lies above the last bound the answer is the maximum, and it is above every bound |
| `Latency.PercentileMonotone` | internal/observability/metrics.go:165-199 | Strictly between 0 and 1 percentiles never decrease |
| `Latency.MedianAboveMaximum` | internal/observability/metrics.go:186-193 | A single sample whose median exceeds its maximum and whose first percentile is below its minimum |
| `PercentileRange.AtMostMaximum` | internal/observability/metrics.go:182-193 | A percentile is at most the maximum exactly when the maximum lies in another bucket or no earlier than the rank within this one |
| `PercentileRange.AtLeastMinimum` | internal/observability/metrics.go:182-193 | The mirror image at the minimum |
| `PercentileRange.RangeExactly` | internal/observability/metrics.go:165-199 | Percentiles stay between minimum and maximum, and never decrease on all of [0, 1], exactly when the minimum is not positive or above every bound and the maximum is a bound or above every one |

## Left out

- SymbolicExecutor.Executor.Run: symbolic states are values, so sharing of slices between clones is not modelled; neither is cancellation of the context, and errors are not told apart.
- SymbolicReport.Run: reading the request and finding the function (base64 module, entry point names, JSON arguments) is not modelled, nor are path identifiers and the models shown with paths.
- SMT-LIB text: expressions are trees with the fixed-size bit-vector meaning, so their rendering and re-reading as text is not modelled.
- WasmParser.ParseCodeEntry: the section framing around code entries (types, imports, exports, code index) is not modelled.
- RaftNode.Node.TickOnce: terms and tick counts do not wrap at 2^64, and the goroutine that ticks in the background is not modelled.
- Federation.Author.Put: synchronous pushes to peers, deletion, regions' health and routing are not modelled; stored policies are values, so cloning has nothing to protect.
- RaftElection.ElectsExactly: about followers whose vote of the term is not asked for or already given; a vote given begins the wait anew (RaftElection.VoteExchange).
- FederationOverlap.ConvergesExactly: about passes without authors at work, and with a completed pass between every two regions; news that travels only through other regions is treated for passes that do not overlap.
- Federation.Replicator.Reconcile: each region's store is a separate object; two regions mounted on one store are not modelled.
- Ring.HashRing.AddNode: the sort is any sort by hash; what sort.Slice does with equal hashes is not reproduced.
- CachedSolver.QueryDetermined: for one model; queries over different models can share a program, since a declaration may also stand in the constraints.
- CachedSolver.Solver.SolveConstraints: elapsed milliseconds are not part of the answer; Z3 is deterministic.
- Resp.Reader.ReadReply: buffers are not allocated ahead of reading, so a length too large to allocate is a short read here.
- Latency.Collector.Record: uint64 counters and the int64 sum do not overflow; the tier and the time of the last update are not kept.
- PercentileRange.RangeExactly: about the percentile before it is truncated to whole nanoseconds.
- Latency.Percentile: real arithmetic, without the final truncation to whole nanoseconds.
- The verification cache of internal/cache, policy import, governance, orchestration, audit, tenancy, authentication, HTTP handlers and sandboxing would only add easier members or wrap code that is not part of the repository.
