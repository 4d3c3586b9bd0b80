# Coordinator protocols of t3-steward, verified

t3-steward runs a coordinator that hands backlog work to workers, supervises
runs with an overseer, and reports what became of them. This project models the
coordinator's protocols whose state outlives one call, and proves what they keep
over every run. `dafny verify dfyconfig.toml` checks all of it.

| file | what it models |
|---|---|
| `WorkerCustody`, `CustodyScripts`, `CustodySafety`, `CustodyProgress`, `CustodyReach` | the exchange with a worker: the bounded scan of its checkpoint uploads with an exclusion list and a skip list that outlives sessions, the pass over its results, and exactly what the exchanges ever take |
| `RoleGraph`, `RoleResolution`, `RoleSearch`, `RolePolicy` | role resolution: a depth-first search with white, grey and black marks over shared maps, against a recursive specification |
| `ActivationLifecycle`, `Overseer`, `ActivationOrder` | the overseer activation: what a boundary reads and signals, the run as a step system in which boundaries and workers interleave, and the order of visits |
| `Yielding`, `YieldingBound` | arbitration between a due activation and older ordinary work, and how often the activation gives way over the life of the records |
| `Reload`, `ReloadBlockers` | configuration reload as a stop, start, ready and receipt transaction with fallback, and the retained work that refuses it |
| `ResultRecords`, `Acceptance`, `CampaignResult` | the acceptance fact of a campaign result, from the recorded artifacts up |
| `Ledger` | ledger passes, ticks and stop under every interleaving |
| `Reconnect` | tracking failed exchanges, the retry backoff and the serve loop around it |
| `FixLineage` | chains of fix campaigns and the rounds they may spend |
| `Utf8`, `TerminalText` | making recorded bytes safe for a terminal and clipping them to one line |
| `Uncollected` | the view of runs nobody has collected |
| `Sorting`, `Assignments`, `Basics` | the stable sort the source takes from its library; assignment states; options, identifiers and ages |

Code that updates state is modelled by classes and loops; each method is proved
equal to a specification function, and the theorems are about those functions.
What the network, the store, a clock or a worker would answer is a parameter:
either a script of arbitrary answers (safety) or a worker that keeps a queue and
honours exclusions (progress). Concurrency is modelled as a relation between
states with one step per atomic action. Identifiers are numbers in a one-field
datatype, compared as the source compares strings; times are integers.

## What the proofs found

- Which uploads the exchanges take depends on both passes of an exchange. A
  queue opens when a hand-on can come to take its first good continuation or the
  ordinary pass its first good upload; any run with more than 513 exchanges takes
  something if and only if the queue opens (`CustodyReach.TakesIff`), and every
  run comes to rest at a queue that does not (`CustodyReach.RunSettles`). The
  comment above the scan says that only a head of 256 failing uploads hides what
  lies behind it. That is not so in either direction: more than 256 breaking
  continuations behind a checkpoint starve it although nothing lies ahead of it,
  since every hand-on breaks and the ordinary pass finds no session
  (`CustodyReach.BreakersBehindStarve`), while breaking checkpoints ahead of a
  continuation hide it only from 512 on (`CustodyReach.PlainBreakersAhead`).
- An activation whose offer is released before any worker claims it is never
  offered again at that epoch: the retry reuses the dispatch identity and the
  store answers with the released row. The comment at
  `cmd/t3-steward/coordinator_activation_lifecycle.go:64-69` speaks of a retry
  that spends no budget. Such a state is reached (`Overseer.StrandedIsReached`)
  and left no more (`Overseer.StrandedStays`); a pending dispatch can still come
  to a worker exactly while no settled row stands at its epoch
  (`Overseer.OfferableIff`). The reassessment of a released offer in
  `activationSignal` is never reached, since the release is signalled first
  (`ActivationLifecycle.ReleasedReassessmentShadowed`).
- A turn that completed after its lease or deadline ran out is revoked and
  credited with nothing, whatever it decided (`ActivationLifecycle.FinishedTurnExact`).
- Bounded yielding rests on an ordinary assignment that marks the opportunity, and
  the marker can be missing or lost. With a clock behind the activation's ready
  time none is left, and batches go ahead repeatedly; a batch leaves one exactly
  when the clock has reached the ready time and it holds the worker or a named
  pool (`YieldingBound.BatchMarks`, `YieldingBound.BehindClockYieldsTwice`). The
  comment says that a restart cannot reset the bound, but the store keeps one row
  per attempt and re-arms a released row in place, so a plan can move the marker
  away and a second marking batch goes ahead (`YieldingBound.RearmedYieldsTwice`).
  A standing marker is lost by exactly those plans that re-arm every marking row
  and put none on the worker or in the named pool since the ready time
  (`YieldingBound.MarkSurvives`, `YieldingBound.GivesWayAgainIff`).
- The reload loop crashes exactly when an instance exits without an error before
  it is ready while a fallback is held: the rejection quotes the error of that
  exit. The request in flight then gets no receipt (`Reload.CrashesIff`,
  `Reload.CrashLosesOne`).
- A ledger `stop` can return while a tick stands between winning the flag and
  joining the wait group, and its pass then executes after the stop. That is the
  only way (`Ledger.StopReturnsExact`, `Ledger.StopIsFinal`,
  `Ledger.StopMissesClaimedTick`).
- A separate reviewer's ACCEPT never adds a commit to the acceptance fact: each
  one it names is already accepted by the producer's own review gate
  (`Acceptance.SeparateReviewAddsNone`).
- Verification counts reports against declared commands, though the comment
  speaks of every declared command: two reports of one command stand for two
  (`ResultRecords.RepeatedReportPasses`). Passed means that every declared command
  reported exit zero exactly when the first reports of declared commands number
  as many as those commands (`ResultRecords.PassedMeansEvery`); where the count is
  met exactly, that is when no report is repeated or undeclared
  (`ResultRecords.PassedMeansClean`).
- A task that needs itself and has an accepted candidate ends both selected and
  failed (`RoleSearch.SelfNeedingEndsBoth`); only on a cycle can that happen
  (`RoleSearch.ResolveRoles`). A lower effort override is refused when the policy
  effort is `xhigh`, which the level table does not list
  (`RolePolicy.LowerOverrideAccepted`).

## Model

| member | source | states |
|---|---|---|
| WorkerCustody.CheckpointSkips.Add | cmd/t3-steward/backlog_v2_worker_client.go:70-83 | the skip list gains the upload once, starting over when it has reached the scan bound, so it never outgrows one scan |
| WorkerCustody.ClassifyResultImport | cmd/t3-steward/backlog_v2_worker_client.go:282-300 | a result is imported iff the first assignment with its id has its epoch and is completed, waits iff that one is still open, and is discarded in every other case |
| WorkerCustody.Session.HandleUpload | cmd/t3-steward/backlog_v2_worker_client.go:449-480 | fetching, importing and acknowledging one upload: what leaves the worker's custody, when the session dies and what then joins the skip list |
| WorkerCustody.Session.ScanRound | cmd/t3-steward/backlog_v2_worker_client.go:425-481 | one round of the scan against any worker: how exclusions and the seen set grow and when it ends |
| WorkerCustody.Session.ScanCheckpoints | cmd/t3-steward/backlog_v2_worker_client.go:414-484 | a scan that ends without an error clears the skip list on the ordinary pass and leaves it on the hand-on; one that ends in an error on a usable session leaves it; one that breaks the session broke off at a fetch, whose upload alone joins it |
| WorkerCustody.HandleResult | cmd/t3-steward/backlog_v2_worker_client.go:322-369 | a result is judged first; it is fetched iff judged importable, acknowledged iff discarded or importable, fetched and not failed, and one that awaits its projection is left alone |
| WorkerCustody.ImportResult | cmd/t3-steward/backlog_v2_worker_client.go:302-369 | the result pass is the recursive `ResultPass` over at most 32 announcements |
| CustodyScripts.ScriptedScanExact | cmd/t3-steward/backlog_v2_worker_client.go:414-484 | against a worker that answers in any way: the rounds a scan reaches, an error iff in one of them the poll fails or an acknowledgement does not land, a broken session iff a fetch breaks the transport, and exactly what is stepped over, fetched, imported, rejected and acknowledged |
| CustodyScripts.ResultPassExact | cmd/t3-steward/backlog_v2_worker_client.go:282-369 | exactly what the lines of the result pass lead to; a result is fetched iff it is importable, among the first 32 announced, with only waiting and acknowledged discarded ones before it |
| CustodySafety.ScanSafe | cmd/t3-steward/backlog_v2_worker_client.go:414-484 | against a worker that may answer anything, repeats included: every acknowledgement follows the fetch and then the import or permanent rejection of that upload, nothing is fetched twice, at most 256 manifests are fetched, and each one a hand-on fetches was announced as a continuation |
| CustodySafety.ResultPassSafe | cmd/t3-steward/backlog_v2_worker_client.go:302-369 | every acknowledgement follows a discard or an importable judgement, a fetch and a settlement, every judgement is the classification by the records read then, and a result that awaits its completed projection whenever it is announced is neither fetched nor acknowledged |
| CustodySafety.CustodyOverRuns | cmd/t3-steward/backlog_v2_worker_client.go:302-484 | over every sequence of hand-ons, ordinary passes and result passes an upload is acknowledged only after it was fetched and imported, rejected for good or superseded, or judged to belong to a released, unknown or other-epoch assignment; a result that only ever awaits its projection is untouched in the whole run |
| CustodyProgress.ScanIsWalk | cmd/t3-steward/backlog_v2_worker_client.go:414-484 | the polling scan with its growing exclusion list equals one left-to-right traversal of the worker's queue |
| CustodyProgress.PassIsScan | cmd/t3-steward/backlog_v2_worker_client.go:414-484 | a pass over custody is what the scan leaves of queue and skip list |
| CustodyProgress.PassKeeps | cmd/t3-steward/backlog_v2_worker_client.go:48-92 | a pass loses nothing but uploads it can handle; the skip list only grows, by the breaking upload, until an ordinary pass ends cleanly and empties it |
| CustodyProgress.PassProgress | cmd/t3-steward/backlog_v2_worker_client.go:406-413 | an ordinary pass takes a good upload off the queue or learns one more breaking upload |
| CustodyProgress.PerformStep | cmd/t3-steward/backlog_v2_worker_client.go:252-269 | the sessions' own hand-on and ordinary scan, run one after the other on a fresh session, come to the custody step the progress theorems are about |
| CustodyProgress.PerformWorks | cmd/t3-steward/backlog_v2_worker_client.go:371-484 | every exchange strictly lessens the work left while a good upload is left, and no interleaved hand-on adds any |
| CustodyProgress.BoundedProgress | cmd/t3-steward/backlog_v2_worker_client.go:392-484 | with fewer than 256 soft failures and P of at most 256 session breakers, any run with at least G·(P+1) exchanges has taken all G good uploads, hand-ons interleaved at will, and leaves exactly the failing ones in order |
| CustodyReach.WalkCrosses | cmd/t3-steward/backlog_v2_worker_client.go:425-484 | along uploads it takes none of, a pass is a crossing that hits a breaking upload, spends its rounds, or goes on behind them with what is left |
| CustodyReach.ExchangeIs | cmd/t3-steward/backlog_v2_worker_client.go:252-269 | one exchange by how its hand-on and its ordinary pass cross what lies ahead of them; after a hand-on that breaks there is no ordinary pass |
| CustodyReach.StuckStays | cmd/t3-steward/backlog_v2_worker_client.go:392-484 | no run of hand-ons and exchanges ever takes anything off a queue that does not open, whatever has been learnt |
| CustodyReach.OpenStep | cmd/t3-steward/backlog_v2_worker_client.go:392-484 | in a queue that opens every exchange takes something or learns a breaking upload the skip list has room for |
| CustodyReach.TakesIff | cmd/t3-steward/backlog_v2_worker_client.go:392-484 | any run with more than 513 exchanges takes something iff the queue opens |
| CustodyReach.RunSettles | cmd/t3-steward/backlog_v2_worker_client.go:405-413 | every run with enough exchanges, at most (G+1)·514 for G good uploads, has come to a queue that does not open |
| CustodyReach.RestIsFinal | cmd/t3-steward/backlog_v2_worker_client.go:405-413 | and no further run changes that queue |
| CustodyReach.ContinuationTakenIff | cmd/t3-steward/backlog_v2_worker_client.go:405-413 | among failing uploads a good continuation is taken iff fewer than 256 soft failures lie ahead of it and the skip list has room for the breaking continuations ahead and for the other breakers beyond one scan; what lies behind it does not matter |
| CustodyReach.CheckpointTakenIff | cmd/t3-steward/backlog_v2_worker_client.go:405-413 | among failing uploads any other good checkpoint is taken iff fewer than 256 soft failures lie ahead of it and the skip list has room for every breaker ahead and every breaking continuation behind within a hand-on's reach |
| CustodyReach.BreakersBehindStarve | cmd/t3-steward/backlog_v2_worker_client.go:410-413 | more than 256 breaking continuations behind a checkpoint keep it in custody in every run, though nothing lies ahead of it |
| CustodyReach.PlainBreakersAhead | cmd/t3-steward/backlog_v2_worker_client.go:410-413 | breaking checkpoints ahead of a continuation hide it iff there are at least 512 |
| RoleResolution.RouteFamily | cmd/t3-steward/campaign_roles.go:286-307 | a route has a family iff all the project's workers that name one agree on it, across projects of one name |
| RoleResolution.FamiliesExact | cmd/t3-steward/campaign_roles.go:286-307 | the families met for a route are exactly those a route of that pair names on a worker of a project of that name |
| RoleResolution.FilterWorkers | cmd/t3-steward/campaign_roles.go:169-193 | of the first project of that name, in order and shown as ready, exactly the workers that are advertised, ready or enrolled as asked, listed where hosts are given, and eligible |
| RoleResolution.ProducerFamilies | cmd/t3-steward/campaign_roles.go:213-232 | the known families of a task's local producers, read from their selections or fixed routes |
| RoleResolution.CrossProvider | cmd/t3-steward/campaign_roles.go:243-261 | the first eligible candidate outside the producers' families that the selector accepts |
| RoleResolution.ResolveOne | cmd/t3-steward/campaign_roles.go:153-279 | the stepwise resolution of one task equals the declarative specification over its producers' selections |
| RoleSearch.LooksAtProducers | cmd/t3-steward/campaign_roles.go:212-232 | a task's resolution depends on its known local producers' selections and nothing else |
| RoleSearch.SolutionIsUnique | cmd/t3-steward/campaign_roles.go:102-285 | on an acyclic producer relation the recursive specification has one solution |
| RoleSearch.Resolution.VisitProducers | cmd/t3-steward/campaign_roles.go:140-151 | the loop over producers leaves every one of them settled and the shared maps consistent with the search so far |
| RoleSearch.Resolution.Visit | cmd/t3-steward/campaign_roles.go:127-280 | a visit settles its task, records its answer after its producers', and records a cyclic need only for a task met again while grey |
| RoleSearch.SearchOver | cmd/t3-steward/campaign_roles.go:125-152 | when no mark is grey every cycle of local producers holds a task in failures, and without a cycle nothing cyclic was recorded |
| RoleSearch.ResolveRoles | cmd/t3-steward/campaign_roles.go:102-285 | on any input every role task is answered, none without a role is selected, each selection is of the task's role under this policy with the effort the task asks for, every cycle has a member in failures, both answers at once or a cyclic need happen only on a cycle, and without a cycle the maps are the one solution of the specification |
| RoleSearch.SelfNeedingEndsBoth | cmd/t3-steward/campaign_roles.go:135-152 | a task that needs itself, reviews nothing and has an accepted candidate ends both selected and failed |
| RoleGraph.CycleIsMet | cmd/t3-steward/campaign_roles.go:127-152 | a finished search has met every cycle of the graph |
| RoleGraph.NothingMet | cmd/t3-steward/campaign_roles.go:135-138 | a search of an acyclic graph meets no grey task |
| RolePolicy.OrderIrrelevant | cmd/t3-steward/campaign_roles.go:102-285 | with distinct names and no cycle the answer does not depend on the order of the task list |
| RolePolicy.AskExact | cmd/t3-steward/campaign_role_ranking.go:11-26 | the selector is asked with the pools of the snapshot, a constrained or recovering one closed for surplus work iff its checks are on, and with none without a snapshot |
| RolePolicy.KnownExact | cmd/t3-steward/campaign_roles.go:212-232 | the known families are exactly those of the routes the known local producers run on: the selected one, or the first fixed one of a task without a role |
| RolePolicy.RefusalExact | cmd/t3-steward/campaign_roles.go:153-211 | no role, an unknown role, and no candidate iff both the ready and the enrolled workers are refused |
| RolePolicy.SelectionExact | cmd/t3-steward/campaign_roles.go:195-278 | what a selection carries: role, digest, verdicts, waiting iff the ready workers were refused, the route of the first candidate that may cross or else the first choice, and the override as effort or else the effort the selector gave for that route; refused iff the override is |
| RolePolicy.CrossProviderExact | cmd/t3-steward/campaign_roles.go:210-263 | a selection marked cross-provider really leaves the producers' families inside the usable quota band, and one that stays had no such candidate |
| RolePolicy.OverrideNeverRaises | cmd/t3-steward/campaign_roles.go:264-271 | an accepted effort override asks for no more than the policy gave |
| RolePolicy.LowerOverrideAccepted | cmd/t3-steward/campaign_roles.go:264-271 | every lower override is accepted iff the policy effort is not `xhigh` |
| ActivationLifecycle.RepairEvents | cmd/t3-steward/coordinator_activation.go:606-624 | the repair lane holds exactly the task-judgment events not yet acknowledged for repair |
| ActivationLifecycle.ReviewerEvents | cmd/t3-steward/coordinator_activation.go:626-634 | the review lane holds exactly the other events |
| ActivationLifecycle.ActivationDecisionCount | cmd/t3-steward/coordinator_activation_lifecycle.go:206-218 | the count is positive iff an overseer decision stands at that very epoch |
| ActivationLifecycle.RepairActivationCommitted | cmd/t3-steward/coordinator_activation_lifecycle.go:152-165 | true iff the event that woke the activation was acknowledged for repair |
| ActivationLifecycle.DispatchSignalExact | cmd/t3-steward/coordinator_activation.go:422-431 | a boundary's signal may produce work iff the activation is idle with a waiting inbox and no other valid one, or pending with no assignment, a released one, or an offered one under operator reassessment; never while it is claimed, unknown or completed |
| ActivationLifecycle.SignalExact | cmd/t3-steward/coordinator_activation_lifecycle.go:37-150 | for each event exactly when a boundary signals it, from the state, the assignment, lease and deadline, the overseer decisions at the epoch and the inbox |
| ActivationLifecycle.SignalCarries | cmd/t3-steward/coordinator_activation_lifecycle.go:37-150 | what the signal says besides: execution observed, the runtime proven stopped iff the assignment was released, a reassessment, the purpose and the outcome |
| ActivationLifecycle.InboxWaitingExact | cmd/t3-steward/coordinator_activation.go:559-571 | a waiting repair has its own lane, from the start; otherwise whatever else lies past the cursor |
| ActivationLifecycle.ReleasedReassessmentShadowed | cmd/t3-steward/coordinator_activation_lifecycle.go:54-69 | a released offer under reassessment is always signalled as undelivered |
| ActivationLifecycle.FinishedTurnExact | cmd/t3-steward/coordinator_activation_lifecycle.go:105-218 | a finished turn is decided iff an overseer decision stands at its epoch or its repair was committed, decided by the operator iff not and the operator decided, else without a decision; past its lease or deadline it is revoked instead |
| Overseer.PlanIs | internal/backlog/supervision_activation.go:504-751 | a plan raises the epoch by at most one, only for a turn proved over or an offer replaced, and automatic recovery of one incident stays within two |
| Overseer.TransitionExact | internal/domain/supervision.go:1031-1203 | for each state exactly from where, on what event and under which guards it is entered, and that the epoch rises iff the activation comes to idle or a pending offer is replaced |
| Overseer.PlanExact | internal/backlog/supervision_activation.go:504-751 | work is offered iff a dispatch is pending after the transition; recoveries start over with a new incident or new events, rise with each replaced thread and escalate past two |
| Overseer.AdvanceKeepsSafe | internal/backlog/supervision_activation.go:504-751 | a planned transition keeps every earlier epoch's assignment settled and raises the epoch only when none is live |
| Overseer.SignalReadStands | cmd/t3-steward/coordinator_activation.go:524-597 | what a signal was read from cannot be undone by a worker before it is acted on |
| Overseer.StepKeepsSafe | internal/domain/supervision.go:1031-1203 | reading, advancing, offering, giving up, settling, worker moves and dispatch failures all keep the run safe, and the epoch never falls |
| Overseer.NeverTwoOverseers | cmd/t3-steward/coordinator_activation.go:210-369 | however boundaries, restarts, claims, expiries, releases and reassessments interleave, no two assignments of a run are live at once |
| Overseer.ClaimedComesActive | cmd/t3-steward/coordinator_activation_lifecycle.go:54-63 | a claimed pending dispatch is active after the next boundary under a valid lease |
| Overseer.BoundaryOutcome | cmd/t3-steward/coordinator_activation_lifecycle.go:37-150 | what any boundary makes of the state and assignment it reads: claimed runs, silent goes to recovery, proven stopped is replaced at the next epoch until recovered twice, finished is spent, past its lease revoked |
| Overseer.ReplacedExact | internal/store/sqlite/supervision_dispatch.go:150-239 | a pending dispatch leaves its epoch only while its offer stands with evidence of a failed dispatch, and that offer is released |
| Overseer.ReplacedHadFailed | internal/store/sqlite/supervision_dispatch.go:150-239 | over every run an offer is replaced only after its own dispatch failed |
| Overseer.ReplacementIsReached | internal/store/sqlite/supervision_dispatch.go:150-239 | a run in which a failed offer is reassessed, released and offered anew at the next epoch |
| Overseer.SettledIsFinal | internal/domain/supervision.go:1031-1060 | settling closes the activation, and no state, epoch or assignment comes after it |
| Overseer.SettledRowStays | internal/store/sqlite/supervision_dispatch.go:240-407 | a settled row at an epoch never becomes live again, in any continuation |
| Overseer.OfferableIff | internal/store/sqlite/supervision_dispatch.go:240-407 | a pending dispatch can still come to a worker at its epoch, short of settling the run, iff no settled row stands there |
| Overseer.StrandedIsReached | cmd/t3-steward/coordinator_activation_lifecycle.go:64-69 | a run from the start to a pending dispatch whose offer was released unclaimed |
| Overseer.StrandedStays | internal/store/sqlite/supervision_dispatch.go:240-407 | a dispatch whose offer was released unclaimed gets no new offer, epoch or state until the run is settled |
| ActivationOrder.BeforeIsOrder | cmd/t3-steward/coordinator_activation.go:163-173 | the visiting comparison is a strict weak order that tells any two runs apart |
| ActivationOrder.VisitsContendersFirst | cmd/t3-steward/coordinator_activation.go:131-173 | every run is visited once, contenders first and oldest first, in the only order possible |
| ActivationOrder.UndeliveredKeepsAge | cmd/t3-steward/coordinator_activation.go:391-406 | an undelivered dispatch keeps its persisted age whatever events arrived since |
| ActivationOrder.TriggerIsDated | cmd/t3-steward/coordinator_activation.go:407-417 | a fresh trigger always has an age, that of the first event waiting in its lane, whatever an older dispatch recorded |
| ActivationOrder.LegacyIsDated | cmd/t3-steward/coordinator_activation.go:398-416 | a dispatch without a persisted age is dated by its legacy deadline, or by the first event waiting in the lane of its own purpose |
| ActivationOrder.WaitingNeverSwap | cmd/t3-steward/coordinator_activation.go:388-417 | two dispatches that keep waiting are visited in the same order at any two boundaries, whatever else waits beside them |
| Yielding.ActivationAlreadyYielded | cmd/t3-steward/backlog_v2_runtime.go:313-333 | true iff some ordinary assignment made at or after the ready time holds the candidate's worker or its named pool |
| Yielding.ArbitrateContenders | cmd/t3-steward/backlog_v2_runtime.go:386-446 | fails iff a proposal at the bottleneck has no age, else allows exactly the strictly older proposals there, and each cutoff is the oldest of the candidate and the proposals it stands for |
| Yielding.ArbitrationExact | cmd/t3-steward/backlog_v2_runtime.go:386-446 | the error, the allowed keys and both cutoffs spelled out by worker, limited pool, ready time and identity of the proposals |
| Yielding.AdmittedIsOlder | cmd/t3-steward/backlog_v2_runtime.go:286-309 | whatever the constraint lets through by its key has the key of a contender at the bottleneck that is strictly older |
| Yielding.TickCutoffs | cmd/t3-steward/backlog_v2_runtime.go:571-589 | per worker and per pool the cutoff is the oldest proposal there, an error iff some proposal has no age |
| Yielding.WorkerCutoffsExact | cmd/t3-steward/backlog_v2_runtime.go:571-589 | a cutoff stands for each worker some routed proposal is on: the age of one of them, and none is ready before it |
| Yielding.PoolCutoffsExact | cmd/t3-steward/backlog_v2_runtime.go:571-589 | the same for each pool |
| YieldingBound.CommitAssignmentPlan | internal/store/sqlite/fleet.go:507-690 | a plan that is empty, names an attempt twice or has an item without a route fails and changes nothing; else exactly the items no other fence refuses and whose row is missing or released are made or re-armed in place, and every other row stays |
| YieldingBound.MarkAfterPlan | internal/store/sqlite/fleet.go:599-676 | after a plan the marker stands iff a marking row was not named by it or the plan itself puts an ordinary row since the ready time on the worker or in the named pool |
| YieldingBound.MarkSurvives | internal/store/sqlite/fleet.go:599-676 | of all writes of the store (new attempts, state changes, activation offers, plans) a standing marker is lost by exactly the plans that re-arm every marking row elsewhere |
| YieldingBound.YieldsExact | cmd/t3-steward/backlog_v2_runtime.go:338-490 | a call yields iff no marker stands, every rival's age is known, and a wait was resumed or an older rival leaves the worker or pool full; nothing is planned but without marker, error and resumed wait, for an older rival |
| YieldingBound.BatchMarks | cmd/t3-steward/backlog_v2_runtime.go:313-355 | a batch that went ahead leaves the marker iff it was committed at or after the ready time, on the worker or in a named pool |
| YieldingBound.OnlyOlderSharersGoAhead | cmd/t3-steward/backlog_v2_runtime.go:417-463 | from the allowed keys alone: everything the replanning pass makes or re-arms holds the candidate's worker or its limited pool and is the attempt of a strictly older contender |
| YieldingBound.MarkStandsIff | cmd/t3-steward/backlog_v2_runtime.go:354-360 | over any history of calls and writes a standing marker stands at every later state iff no write in between loses it |
| YieldingBound.BoundedYielding | cmd/t3-steward/backlog_v2_runtime.go:338-490 | once the marker stands, no later call admits a batch or yields to one, to a wake or to a full worker, across any restarts and writes but a plan that loses the marker; so at most one batch that leaves it goes ahead while none does |
| YieldingBound.MayGiveWayIff | cmd/t3-steward/backlog_v2_runtime.go:338-490 | a call can give way to a batch iff no marker stands |
| YieldingBound.GivesWayAgainIff | internal/store/sqlite/fleet.go:599-676 | a write to marked records lets a later call give way to a batch again iff it loses the marker |
| YieldingBound.RearmLoses | internal/store/sqlite/fleet.go:599-676 | re-arming the one marking row, once released, where it does not hold the bottleneck loses the marker |
| YieldingBound.RearmedYieldsTwice | internal/store/sqlite/fleet.go:599-676 | two marking batches go ahead of one candidate when the first one's row is released and re-armed on another worker and pool in between |
| YieldingBound.BehindClockYieldsTwice | cmd/t3-steward/backlog_v2_runtime.go:320-323 | with a clock behind the ready time two batches in a row go ahead of one candidate |
| YieldingBound.UnmarkedYieldsUnbounded | cmd/t3-steward/backlog_v2_runtime.go:447-486 | without a marker any number of calls in a row may yield, each to a resumed wait or each to older work that only finds the worker or pool full |
| Reload.ReceiptWriter.Write | cmd/t3-steward/coordinator_reload.go:117-160 | the receipt published is never requested before the last one nor completed before its own request, is otherwise the one given, and is that very one when its times are in order |
| Reload.ActivationLoop.OnReady | cmd/t3-steward/coordinator_reload.go:324-334 | readiness publishes the pending receipt and drops the fallback |
| Reload.ActivationLoop.OnFailedStart | cmd/t3-steward/coordinator_reload.go:335-354 | a start that fails restores the fallback with a rejection, ends the loop when there is none, and crashes when the exit carries no error to quote |
| Reload.ActivationLoop.OnRequest | cmd/t3-steward/coordinator_reload.go:215-388 | one request is rejected, found unchanged, or stops the instance and starts the next |
| Reload.ActivationLoop.Run | cmd/t3-steward/coordinator_reload.go:301-388 | the loop over any events is the step function played over them |
| Reload.RequestExact | cmd/t3-steward/coordinator_reload.go:215-263 | a running loop rejects a request at once iff the file was refused or either digest is missing, answers unchanged iff it loads equal to the running configuration, and otherwise publishes nothing and starts the new one |
| Reload.PhaseExact | cmd/t3-steward/coordinator_reload.go:301-388 | which events end the loop, which let it run and which start it anew |
| Reload.PublishedBy | cmd/t3-steward/coordinator_reload.go:301-388 | over every run each receipt was published by one event and says accepted iff that was a new configuration becoming ready, unchanged iff a request for the running one, rejected iff a refused request or a failed start |
| Reload.TimesExact | cmd/t3-steward/coordinator_reload.go:113-128 | a receipt's times are the request's and the answer's own, moved on only to the last request time and to its own |
| Reload.StepIsTransaction | cmd/t3-steward/coordinator_reload.go:301-388 | a wait either publishes nothing and leaves the effective configuration, or publishes one receipt from its old digest to its new one, and only an acceptance changes it |
| Reload.ReloadsAreTransactions | cmd/t3-steward/coordinator_reload.go:301-388 | over every run at most one instance is alive, each consumed request has exactly one receipt save one in flight at a cancellation or crash, receipts chain digest to digest, and the last names the running configuration whenever an instance is ready |
| Reload.EveryRequestReceipted | cmd/t3-steward/coordinator_reload.go:312-388 | a loop that is running, or ended by itself, has receipted every request |
| Reload.FailedActivationRestores | cmd/t3-steward/coordinator_reload.go:335-384 | an activation that fails with an error starts exactly the prior configuration again under a rejection naming it, and a second exit ends the loop with nothing more written |
| Reload.CrashesIff | cmd/t3-steward/coordinator_reload.go:335-354 | over every run the loop crashes iff an instance exits without an error before it is ready while a fallback is held |
| Reload.CrashLosesOne | cmd/t3-steward/coordinator_reload.go:335-354 | the request in flight at the crash is the only one without a receipt |
| Reload.LoadedFileTakesEffect | cmd/t3-steward/coordinator_reload.go:215-388 | a file that loads, even one that changes only the owner channels, is the running configuration once the instance is ready, under one receipt that says accepted iff it differs |
| Reload.ReceiptsInOrder | cmd/t3-steward/coordinator_reload.go:113-128 | however the clock steps, request times never go back over a run, the receipt found at start included |
| ReloadBlockers.FindBlockers | cmd/t3-steward/coordinator_reload.go:443-494 | the memoised loop equals judging each assignment on its own; an error iff the current binding of a worker with unsettled work does not build |
| ReloadBlockers.BlockersExact | cmd/t3-steward/coordinator_reload.go:456-486 | each unsettled assignment on a worker whose catalog changes or no longer builds is listed exactly once, and nothing else |
| ReloadBlockers.BlockersOrdered | cmd/t3-steward/coordinator_reload.go:487-493 | the list is in the only order that worker and assignment allow |
| ReloadBlockers.Admits | cmd/t3-steward/coordinator_reload.go:402-432 | a reload passes iff every worker with unsettled work builds to the same catalog revision before and after |
| ResultRecords.LatestArtifact | cmd/t3-steward/campaign_result.go:423-432 | the last artifact of the kind and name the latest attempt retained |
| ResultRecords.Verification | cmd/t3-steward/campaign_result.go:437-503 | a failing report or gate outranks anything unreadable, that outranks anything missing, and passed means none of them |
| ResultRecords.VerificationExact | cmd/t3-steward/campaign_result.go:434-503 | exactly when it is not declared, pending, failed, unavailable or missing: a failure goes before anything unreadable and that before anything missing, the gate by its latest report about this attempt |
| ResultRecords.PassedExact | cmd/t3-steward/campaign_result.go:437-503 | passed iff something was declared, the attempt is over, every report reads exit zero and there are enough, and a declared gate's latest report is of this attempt and passed |
| ResultRecords.PassedMeansEvery | cmd/t3-steward/campaign_result.go:434-503 | of a verification that passed, every declared command reported exit zero iff the first reports of declared commands number as many as those commands |
| ResultRecords.OneReportEach | cmd/t3-steward/campaign_result.go:434-503 | with no report repeated and none of an undeclared command, passed means every declared command passed |
| ResultRecords.PassedMeansClean | cmd/t3-steward/campaign_result.go:434-503 | with distinct commands declared and as many reports, passed means every declared command passed iff no report is repeated and none is of an undeclared command |
| ResultRecords.RepeatedReportPasses | cmd/t3-steward/campaign_result.go:495-500 | a task with two declared commands and two reports of the first is passed |
| CampaignResult.ReadTask | cmd/t3-steward/campaign_result.go:368-419 | the row of a task: its attempt, the commits its outputs record and its verification |
| CampaignResult.CommitExact | cmd/t3-steward/campaign_result.go:386-410 | an output's entry reads c iff the latest selected record of that declared output parses as c and is no failed attempt's |
| CampaignResult.EntryExact | cmd/t3-steward/campaign_result.go:386-416 | an output leaves an entry iff a record of it was retained or the attempt succeeded |
| CampaignResult.KeptExact | cmd/t3-steward/campaign_result.go:206-215 | the document keeps every task but the sink, in manifest order |
| Acceptance.ReviewedExact | cmd/t3-steward/campaign_result.go:217-239 | a review is about k iff some input names a producer whose last row records k under one of the names the input gives |
| Acceptance.SeparateReviewAddsNone | cmd/t3-steward/campaign_result.go:324-339 | a separate reviewer's ACCEPT yields no commit its producer's own gate does not already accept |
| Acceptance.AcceptanceExact | cmd/t3-steward/campaign_result.go:258-360 | a commit is accepted iff an accepted-head gate binds it to a succeeded, verified attempt that recorded it and no verdict asked for changes on it |
| Acceptance.LastInManifestOrder | cmd/t3-steward/campaign_result.go:341-352 | no task after the one reported offers a commit that still stands |
| Acceptance.LastOfRow | cmd/t3-steward/campaign_result.go:299-340 | within one task the last input that brings a standing commit decides, and the task's own gate only when none does |
| Acceptance.RejectedCommits | cmd/t3-steward/campaign_result.go:271-291 | exactly the readable commits that a task asking for changes reviewed |
| Acceptance.CampaignAcceptance | cmd/t3-steward/campaign_result.go:258-360 | the loops over verdicts, gates and candidates come to the acceptance the theorems are about |
| CampaignResult.DocumentAcceptance | cmd/t3-steward/campaign_result.go:197-360 | over the raw records, duplicate task names included: something is accepted iff a kept task that succeeded and is verified recorded the head its review gate accepted and no kept task asking for changes consumes an output recorded as that commit; without an artifact reader nothing is |
| CampaignResult.RejectedExact | cmd/t3-steward/campaign_result.go:217-291 | a commit is rejected iff some kept task asking for changes consumes, by producer and name, an output whose latest selected record reads it as no failed attempt's commit |
| CampaignResult.ReportedExact | cmd/t3-steward/campaign_result.go:292-352 | which commit is reported: of the last task that offers one nobody asked changes on, what its last such input brings, else what its own gate accepted |
| CampaignResult.BuildCampaignResult | cmd/t3-steward/campaign_result.go:197-242 | building the document row by row gives those rows and that fact |
| Ledger.StepKeepsSound | cmd/t3-steward/coordinator_ledger.go:55-80 | every atomic step keeps one holder of the running flag, the slot with it, and the wait group equal to the passes counted in it |
| Ledger.OnePassExecutes | cmd/t3-steward/coordinator_ledger.go:55-80 | under every interleaving at most one pass executes, older ones tearing down beside it, and the cancel slot is its own |
| Ledger.LeaveIsCounted | cmd/t3-steward/coordinator_ledger.go:66-68 | a pass leaving the wait group is always counted in it |
| Ledger.EveryPassMoves | cmd/t3-steward/coordinator_ledger.go:55-80 | in every state of every run each pass that is not gone can take its next step |
| Ledger.NoContextLeaks | cmd/t3-steward/coordinator_ledger.go:64-72 | over every run a pass that has let go of the flag has cancelled its context |
| Ledger.StopEndsEverything | cmd/t3-steward/coordinator_ledger.go:93-104 | a stop that begins after the last tick returned cancels the executing pass, and when it returns every pass is gone for good |
| Ledger.StopReturnsExact | cmd/t3-steward/coordinator_ledger.go:93-104 | when stop returns every pass is gone or stands before joining the group, and from there it can still execute |
| Ledger.StopIsFinal | cmd/t3-steward/coordinator_ledger.go:93-104 | with no tick in that place at the return and none after it, nothing ever executes again |
| Ledger.StopMissesClaimedTick | cmd/t3-steward/coordinator_ledger.go:56-63 | a run in which stop returns and the pass of a tick begun before it then executes |
| Reconnect.WorkerRetryable | cmd/t3-steward/coordinator_reconnect.go:62-81 | a failure is retried at once iff the worker's own snapshot is missing, foreign or accepting, or some cause is other than unavailability |
| Reconnect.TickWorkers | cmd/t3-steward/backlog_v2_worker_client.go:493-545 | all selected workers hand on before any is exchanged, an unopened one is not dialled again, and the results are the configured workers asked for, in configured order |
| Reconnect.PassExact | cmd/t3-steward/backlog_v2_worker_client.go:493-545 | the operations of a pass in order: one hand-on for each worker asked, then one exchange for each whose session opened |
| Reconnect.SelectedAre | cmd/t3-steward/backlog_v2_worker_client.go:493-520 | the workers asked are exactly the configured ones requested, in configured order |
| Reconnect.Tracker.Record | cmd/t3-steward/coordinator_reconnect.go:43-54 | the retry list is exactly the workers of the report that failed retryably |
| Reconnect.Tracker.Tick | cmd/t3-steward/coordinator_reconnect.go:25-29 | after a scheduled pass the list is exactly the configured workers whose exchange just failed retryably |
| Reconnect.Tracker.Retry | cmd/t3-steward/coordinator_reconnect.go:32-41 | a retry asks exactly the failed workers, or everyone before the first pass, and afterwards lists exactly those whose latest exchange failed retryably |
| Reconnect.FiredIsSound | cmd/t3-steward/backlog_v2_runtime.go:1351-1382 | every firing keeps an armed timer with something pending and a delay of 1, 2, 4 or 5 seconds, and each retry uses up one of those left |
| Reconnect.FiredExact | cmd/t3-steward/backlog_v2_runtime.go:1351-1382 | whom a firing asks, who is failed after it, when the timer goes on and at which delay |
| Reconnect.Boundaries.OnRetry | cmd/t3-steward/backlog_v2_runtime.go:1360-1367 | a retry is the pure step: the failed workers are asked again, and the backoff goes on or the timer is put away |
| Reconnect.Boundaries.OnScheduled | cmd/t3-steward/backlog_v2_runtime.go:1368-1380 | a scheduled pass arms the timer at one second, leaves it running at its delay, or puts it away exactly when nothing is pending |
| Reconnect.Boundaries.Serve | cmd/t3-steward/backlog_v2_runtime.go:1337-1382 | serving any timers plays the pure step over them, and the count returned is that of the retries made |
| Reconnect.FourRetriesAtMost | cmd/t3-steward/backlog_v2_runtime.go:1337-1382 | from start-up on, in every stretch of firings without a scheduled pass at most four retries are made, whatever the workers answer |
| Reconnect.FourRetriesReached | cmd/t3-steward/backlog_v2_runtime.go:1337-1382 | a worker that keeps failing is retried four times and then no more |
| FixLineage.FixRounds | cmd/t3-steward/campaign_fix.go:430-439 | refused iff no round is left, else one or two rounds within the limit |
| FixLineage.Resolve | cmd/t3-steward/campaign_fix.go:587-668 | the counters and history the next fix writes, or its refusal |
| FixLineage.SpentExact | cmd/t3-steward/campaign_fix.go:614-656 | two rounds are spent iff two were declared and the review between them asked for changes, one iff one was declared or it accepted |
| FixLineage.SuccessorExact | cmd/t3-steward/campaign_fix.go:587-668 | refused iff the lineage is invalid, not borne out or leaves no round under the limit in force; else the rounds spent, that limit, two rounds or the one left, and the review added unless it is the root |
| FixLineage.FixIsValid | cmd/t3-steward/campaign_fix.go:614-668 | one fix writes a lineage the next one's validator accepts, spends at least one of the rounds declared before it and stays within their limit |
| FixLineage.ChainIsBounded | cmd/t3-steward/campaign_fix.go:614-668 | along every chain with any limits each lineage validates, rounds used strictly increase within the limit they were declared under, the history never outgrows them, and there are at most eight fixes and no more than the last limit |
| FixLineage.DefaultChainIsBounded | cmd/t3-steward/campaign_fix.go:587-668 | without an override there are at most four |
| FixLineage.LimitIsReached | cmd/t3-steward/campaign_fix.go:658-668 | every limit is reached by a chain of that length: four by default, eight at most |
| Utf8.RoundTrip | cmd/t3-steward/backlog_admin_artifact.go:82 | decoding what was encoded gives the rune back and consumes exactly its bytes, as section 4 of RFC 3629 requires |
| Utf8.DecodesOnlyEncodings | cmd/t3-steward/backlog_admin_artifact.go:82-87 | nothing decodes but the one encoding of a scalar value: no overlong form, surrogate or value past the last plane |
| TerminalText.SafeTerminalText | cmd/t3-steward/backlog_admin_artifact.go:79-100 | the loop over bytes prints each rune as it is, escaped, or replaced |
| TerminalText.SafeTextIsClean | cmd/t3-steward/backlog_admin_artifact.go:79-100 | for every byte string the output is well-formed UTF-8 with no control or format character but newline and tab, doing it again changes nothing, and exactly such text is left unchanged |
| TerminalText.EscapeExact | cmd/t3-steward/backlog_admin_artifact.go:93-97 | an escape is a backslash, x with two digits or u with at least four, unpadded past that, which read back as the rune |
| TerminalText.LineIsClean | cmd/t3-steward/campaign_result.go:642-643 | the one line keeps every visible rune in order, has only single blanks between words, and no control or format character |
| TerminalText.ClipCampaignText | cmd/t3-steward/campaign_result.go:642-651 | clipped text has at most n+3 bytes and is the longest run of whole runes within n bytes, or the line itself when it fits |
| Uncollected.BuildView | cmd/t3-steward/campaign_collect.go:317-378 | one pass over the rows, the first row of each owned run deciding its place |
| Uncollected.SpeakingOnce | cmd/t3-steward/campaign_collect.go:332-338 | each owned run that is listed has exactly one row that counts, however many name it |
| Uncollected.EveryOwnedRunCounted | cmd/t3-steward/campaign_collect.go:317-378 | shown, collected, active and unknown add up to the runs the thread owns |
| Uncollected.ShownExactly | cmd/t3-steward/campaign_collect.go:324-377 | the runs shown are exactly the owned ones, each by its first row, that are finished and not collected as they stand or running with an open question, input needed or a failed task, in the only order of its kind |
| Uncollected.PlaceExact | cmd/t3-steward/campaign_collect.go:324-350 | a finished run is omitted iff collections are supported and the thread's last one was of the run as it stands; a running one iff nobody is asked, no input is needed and no task failed |
| Uncollected.CountedExactly | cmd/t3-steward/campaign_collect.go:339-361 | what the collected and active counts are of |
| Uncollected.BeforeIsOrder | cmd/t3-steward/campaign_collect.go:362-377 | the comparison is a strict weak order that tells any two runs apart |
| Uncollected.BeforeExact | cmd/t3-steward/campaign_collect.go:362-377 | running runs come first, then the newest finished, an unknown time last, and equals by run |
| Sorting.SortKeeps | cmd/t3-steward/coordinator_activation.go:163-173 | sorting gives an ordered permutation |
| Sorting.SortIsStable | cmd/t3-steward/coordinator_activation.go:163-173 | members that compare alike keep their order |

## Left out

- Transports, envelope signing, credentials, process signals, pid files and the file rename of a receipt: a receipt write is an assignment that succeeds.
- The SQLite store: durable records are sequences and maps, changed by the writes the modules name; a row that exists at an activation's identity is returned, as `internal/store/sqlite/supervision_dispatch.go:268-277` does.
- A worker session without a record store: `WorkerCustody.ImportResult` models the sessions that classify results.
- In an exchange the result pass lies between the hand-on and the ordinary checkpoint pass; the progress theorems assume it ends without an error.
- Activation events that nothing in the repository raises (operator continuation, takeover, reconciliation acknowledgement) are not steps of `Overseer`.
- The failure evidence that lets a reassessment replace an offer is a set of epochs, not the four identifiers of the row.
- Placement, executor capacity and quota admission: a boundary of `Overseer` may give up at any point, which covers a refusal by any of them.
- The policy's candidate selector, the planner and the wake admission are parameters; `YieldingBound` assumes of the planner that it commits only proposals its constraint admits.
- The fences of a plan other than the row's state are one set of refused attempts in `YieldingBound`; a stale snapshot or epoch, which refuses the whole plan, is left out.
- How the yielding function is wired to the activation pass: it is modelled by its contract.
- Texts of reasons, of blocker advice and of attention entries, and the order of attention entries.
- Names with a slash are a constructor of their own in the role modules instead of a test on the string.
- The format characters are those of Unicode 15.
- Strict decoding of the lineage document beyond its counters and history.
- The quota watchdog, archives, backups, asks, commit export, configuration validation and all argument parsing and rendering are not modelled.
