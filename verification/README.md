# ShadowOps, modelled and proved in Dafny

ShadowOps audits database migrations. An audit *run* advances through a fixed path of states; each advance is claimed by
a worker, fenced by a token, guarded by an optimistic version check, and asked for by an event in a transactional
outbox. This project models that protocol and the pure cores around it, and proves what they promise.

* **The run protocol** (`Lifecycle`, `Store`, `Protocol`, `Invariance`, `Safety`, `Delivery`, `Claims`, `Cancellation`,
  `StaleReads`, `Atomic`, `Effects`). `Store` gives each transaction as a function of the tables. `Protocol` is a state
  machine over those transactions: they commit in any order, a worker may use any claim it was ever granted, a clock
  reading may be any number, a delivery may be repeated or lost, and a transaction may use *any run row that was ever
  committed* as its earlier read, so that reads and guarded writes are separate steps. One inductive invariant
  (`Protocol.Inv`) holds in every reachable state, and the guarantees over whole executions follow from it. Stale reads
  have a price: a recorded cancel may be erased, and a claim may be granted for a version its run has left.
  `Cancellation` and `Claims` prove exactly when each is avoided, for every action and every read; `StaleReads` gives an
  execution for each way it happens; `Atomic` draws what follows when every transaction reads the current rows, and
  `Effects` says column by column what each transaction writes, when it is refused and with which answer.
* **The use cases** (`Persistence`, `Services`, `Refinement`, `PassEffects`, `LostPasses`). The unit of work, its
  repositories and the services as classes that change the tables in place. A session is what others have committed
  overlaid with its own uncommitted writes, and other transactions commit between the reads and the writes of every use
  case, of each event of a batch too. Each method is proved to commit exactly its transaction on top of what has
  committed by then, or nothing, and each of those transactions is a step, or a sequence of steps, of the protocol.
* **The timeline** (`Timeline`). The event listing of a run and the resumable stream that polls it, composed with the
  invariant of the protocol.
* **The revision graph** (`Sequences`, `Digraph`, `RevisionGraph`, `RevisionLinearity`, `GraphAnswers`). The builder
  that decides from any list of revision files whether they form one chain, its depth-first cycle check, and the exact
  meaning of its verdict.
* **The plan validator** (`PlanValidator`, `PlanOrder`, `PlanAnswers`, `ReferencePlanner`, `Ordering`). The checks on
  agent plans, and what acceptance means when the catalog is a chain of mandatory capabilities of any length.
* **Bounded output** (`Characters`, `Utf8`, `BoundedText`, `Redaction`, `Secrets`, `Evidence`). Runner output is cut at
  a UTF-8 boundary (sections 3 and 4 of RFC 3629), redacted, and stored under a byte budget.
* **Git status** (`GitStatus`, `GitReports`). The parser of NUL-separated porcelain records, proved against a printer.

Identifiers are natural numbers drawn from a counter, clock readings are unconstrained integers passed to each action,
and answers of the broker, digests, exclusion rules and retry times are parameters.

Where the code does less than one might expect, the model follows the code: an expired owner may renew its lease on its
own row while a CANCELLED row is live, rows of losing workers stay RUNNING on an ended run, a save writes the
cancellation time from its earlier read, a takeover keeps the version of the row it takes over, a CANCELLED row may be
claimed beside a live one that the claim did not see, and one save that loses its race aborts a whole reconciliation
pass.

## Model

| member | source | states |
|---|---|---|
| Lifecycle.NextMainState | src/shadowops/domain/runs.py:87-95 | every state on the main path but the last has exactly one successor, the next in the path; all other states have none |
| Lifecycle.AllowedEdges | src/shadowops/domain/runs.py:76-123 | the lifecycle graph edge by edge: the main path, the approval branch, and two ways to end early from every state that has not ended |
| Lifecycle.AuditRun.Advance | src/shadowops/domain/runs.py:118-130 | a declared edge changes the state, bumps the version by one and stamps completion on a terminal state; any other edge is refused and changes nothing |
| Lifecycle.AuditRun.RecordCancel | src/shadowops/domain/runs.py:132-141 | cancelling is idempotent, refused on a terminal run or a wrong version, and never changes the version |
| Persistence.UnitOfWork.AddRunIfKeyAbsent | src/shadowops/persistence/repositories.py:146-171 | inserts exactly when no run holds the idempotency key |
| Persistence.UnitOfWork.SaveRun | src/shadowops/persistence/repositories.py:183-203 | writes exactly when the stored version is the expected one, and then the mutable columns of that row only |
| Persistence.UnitOfWork.GetCurrentStep | src/shadowops/persistence/repositories.py:247-257 | the RUNNING row of the run that started last, or none when there is no RUNNING row |
| Persistence.UnitOfWork.ClaimStep | src/shadowops/persistence/repositories.py:259-303 | inserts under a free step key, takes over an expired RUNNING row with a new token, otherwise changes nothing |
| Persistence.UnitOfWork.HeartbeatStep | src/shadowops/persistence/repositories.py:305-325 | renews exactly a RUNNING row that carries the token, whether or not its lease expired |
| Persistence.UnitOfWork.CompleteStep | src/shadowops/persistence/repositories.py:327-358 | finishes exactly a RUNNING row that carries the token, and records the resulting version |
| Persistence.UnitOfWork.FailStep | src/shadowops/persistence/repositories.py:360-390 | fails exactly a RUNNING row that carries the token, and records the resulting version and the error |
| Persistence.UnitOfWork.LockUnpublished | src/shadowops/persistence/repositories.py:417-428 | of the due unpublished events that nobody has locked, the earliest, at most the limit, none skipped for a later one |
| Persistence.UnitOfWork.MarkPublished | src/shadowops/persistence/repositories.py:430-446 | marks an event once, counts the attempt and clears the error |
| Persistence.UnitOfWork.MarkFailed | src/shadowops/persistence/repositories.py:448-464 | counts a refused attempt and puts the event off; a published event is left alone |
| Persistence.UnitOfWork.LockStaleDeliveries | src/shadowops/persistence/repositories.py:466-491 | of the deliveries of current versions without a live step that nobody has locked, the longest-stale, at most the limit |
| Persistence.UnitOfWork.WakeCurrentEvent | src/shadowops/persistence/repositories.py:504-523 | every event of the current version of this run, and no other, is woken; the answer is whether that was exactly one |
| Services.RunService.Create | src/shadowops/application/runs.py:37-80 | commits exactly the create transaction, also when another request takes the key after the first look-up; then that run is replayed and nothing is written |
| Services.RunService.Cancel | src/shadowops/application/runs.py:89-105 | commits exactly the cancel transaction for the row it read, on top of whatever committed since |
| Effects.CancelEffect | src/shadowops/persistence/repositories.py:504-523 | a cancel that saves its run, with any earlier read, records the request at the same version; the one event of that version becomes unpublished, due at that reading and so at every later one, with its request and attempts as they were; no other row changes |
| Effects.CancelAnswers | src/shadowops/application/runs.py:89-105 | the answers to a cancel for every read and every state at the write: not found, already requested or cancelled, ended, out of date, or the changed run |
| Services.RunExecutionService.Claim | src/shadowops/application/run_execution.py:34-87 | event, run and current step are read one after the other with commits of others between; commits exactly the claim transaction for the run and the step as each was read, or nothing |
| Effects.ClaimIsGrantedIff | src/shadowops/application/run_execution.py:40-87 | a claim is granted if and only if the run read is live and is in the state and version its event asks for, no live owner of its version was seen when it was cancelled, and the row under the step key, if any, is RUNNING with an expired lease |
| Effects.ClaimEffect | src/shadowops/persistence/repositories.py:259-303 | a granted claim is a new row for the run as read, or the row under its step key with one more attempt, a new owner and a new lease; its token is new, and no other row changes |
| Services.RunExecutionService.GetRunForClaim | src/shadowops/application/run_execution.py:89-95 | the run at exactly the version the claim is fenced to, else the claim is lost |
| Services.RunExecutionService.Heartbeat | src/shadowops/application/run_execution.py:97-110 | commits exactly the renewal, or nothing |
| Effects.HeartbeatEffect | src/shadowops/persistence/repositories.py:305-325 | a renewal succeeds exactly for the RUNNING row with the token of the claim, moves its heartbeat and its lease, and changes nothing else |
| Services.RunExecutionService.Finalize | src/shadowops/application/run_execution.py:112-139 | commits run, step and next event together, or nothing at all, with the guards evaluated at write time |
| Services.RunExecutionService.Fail | src/shadowops/application/run_execution.py:141-166 | commits the failed run and step together, or nothing at all, with the guards evaluated at write time |
| Services.OutboxDispatcher.DispatchBatch | src/shadowops/worker/outbox.py:43-61 | hands the earliest due unlocked events to the broker, marks each by its answer on top of what others committed meanwhile, and counts those accepted |
| Effects.DispatchSelection | src/shadowops/persistence/repositories.py:417-428 | a batch holds due unpublished events that nobody has locked, by creation and then by id, and leaves one out only when it is full of earlier ones |
| Effects.DispatchEffect | src/shadowops/persistence/repositories.py:430-464 | an accepted event is published at that reading with one more attempt and no error, a refused one is put off with one more attempt and its error; without the commit only the broker knows |
| Effects.DispatchedBatch | src/shadowops/worker/outbox.py:43-61 | a batch marks each of its events by its own answer, and no other event |
| Effects.DispatchedCount | src/shadowops/worker/outbox.py:43-61 | the number a batch reports is the number of its events the broker took |
| Services.RunReconciler.ReconcileBatch | src/shadowops/worker/reconciler.py:34-80 | recovers the longest-stale unlocked deliveries in order, with other transactions committing before each read and each write; all in one commit, or, when a save loses its race, none of them |
| Effects.ReconcileSelection | src/shadowops/persistence/repositories.py:466-491 | a pass picks unlocked deliveries, old enough, of current versions of live runs without a RUNNING step on a live lease, the longest-published first, and leaves one out only when it is full |
| Effects.ReconcileEffect | src/shadowops/worker/reconciler.py:43-77 | one reconciliation: nothing when the run has moved on; within the budget the event is due at once with request and attempts kept; otherwise the run fails with the recovery code and one finished step records it, unless the save loses its race |
| PassEffects.PassEffect | src/shadowops/worker/reconciler.py:34-80 | a committed pass, with commits of others before each read and write: every selected event within its budget is unpublished and due from that reading on, every run whose budget was spent has failed with one step that records it, every run that had moved on and every other run is as it was, and the numbers it reports are those of the events reopened and the runs failed |
| Refinement.ReachableIsConsistent | src/shadowops/persistence/repositories.py:119-181 | every reachable state keeps the primary and unique keys the repositories rely on |
| Refinement.DispatchBatchIsAnExecution | src/shadowops/worker/outbox.py:43-61 | a dispatched batch is a sequence of single dispatch steps of the protocol where it commits, whatever overlapped it |
| Refinement.ReconcileBatchIsAnExecution | src/shadowops/worker/reconciler.py:34-80 | a pass that others overlap is lost if and only if, at some event whose budget is spent and whose run was read at the version of the event, the run has left that version by the time of the write; otherwise it is a sequence of reconcile steps of the protocol with those, possibly stale, reads |
| LostPasses.PassIsLost | src/shadowops/worker/reconciler.py:43-77 | for every budget, lease and staleness bound, an execution in which a pass that holds all its locks and reads only current rows is lost: a worker whose lease expired finishes its step between the read and the save |
| PassEffects.PassSparesLiveSteps | src/shadowops/persistence/repositories.py:466-491 | a committed pass leaves the run row, the steps and the events of every run whose current step had a live lease at the selection exactly as they were |
| Refinement.CreateIsAStep | src/shadowops/application/runs.py:37-80 | a create with an earlier look-up of its key takes one step of the protocol, and what it may rely on holds in every reachable state |
| Refinement.CancelIsAStep | src/shadowops/application/runs.py:89-105 | a cancel that read its run earlier takes one step of the protocol |
| Refinement.ClaimIsAStep | src/shadowops/application/run_execution.py:34-87 | a claim that read event, run and step at three earlier points takes one step of the protocol, and a granted claim is recorded as granted |
| Refinement.RenewedLeaseHolds | src/shadowops/application/run_execution.py:97-110 | after a renewal, and until the renewed lease has run out, no claim takes the row over, whatever it read |
| Refinement.FinalizeIsAStep | src/shadowops/application/run_execution.py:112-139 | a finalize that read its run earlier takes one step of the protocol |
| Refinement.FailIsAStep | src/shadowops/application/run_execution.py:141-166 | a failure that read its run earlier takes one step of the protocol |
| Refinement.CancelWakesOneEvent | src/shadowops/persistence/repositories.py:504-523 | in every reachable state, waking the current event of a run meets exactly one event if and only if the run has not ended |
| Invariance.StepKeepsInv | src/shadowops/application/run_execution.py:34-166 | every transaction, with any earlier read and any old claim, keeps the invariant |
| Invariance.EveryExecutionKeepsInv | src/shadowops/application/run_execution.py:34-166 | the invariant holds after every sequence of transactions |
| Safety.ExactlyOneStepPerVersion | src/shadowops/application/run_execution.py:112-166 | a run at version n has exactly one finished step for each version 2..n and for no other |
| Safety.RunsFollowTheDeclaredPath | src/shadowops/domain/runs.py:52-95 | the states a run went through are a prefix of the declared path, the last possibly replaced by FAILED or CANCELLED; the version never exceeds 12 |
| Safety.StepsStartOnThePath | src/shadowops/application/run_execution.py:68-87 | a finished step started in the state that the path assigns to the version it left |
| Safety.StepGrows | src/shadowops/persistence/repositories.py:183-203 | one transaction raises a version by at most one, never lowers it, and never leaves a terminal state |
| Safety.RunsOnlyGrow | src/shadowops/persistence/repositories.py:183-203 | over a whole execution no run disappears, goes back a version or leaves a terminal state |
| Safety.VersionIsLeftOnce | src/shadowops/application/run_execution.py:112-166 | over any execution each version of a run is left by at most one transaction, for the version after it |
| Safety.RowSuccession | src/shadowops/persistence/repositories.py:259-390 | a finished step row never changes; a RUNNING one keeps its token or gets one no claim carried before |
| Safety.LostClaimStaysLost | src/shadowops/persistence/repositories.py:305-390 | a worker whose claim was taken over or finished never passes the fence again |
| Safety.OneHolderPerStep | src/shadowops/persistence/repositories.py:259-303 | of all claims ever granted for a step at most one passes the fence |
| Safety.FinishingOutcome | src/shadowops/application/run_execution.py:112-166 | finalize and fail commit exactly when fence and version guard hold at write time; otherwise the answer is a lost claim when the fence or the version read does not match, and a concurrent save when they do |
| Safety.FinalizeEffect | src/shadowops/application/run_execution.py:120-139 | a committed finalize takes its run to the next version and to the claimed state, or to CANCELLED if its read carried a cancel, stamps completion exactly on an ended run, finishes its step, adds one due event exactly for a run that goes on, and changes no other row |
| Safety.FailEffect | src/shadowops/application/run_execution.py:141-166 | a committed failure takes its run to FAILED at the next version with the given code and detail and the time of completion, fails its step with the same code and detail, adds no event and changes no other row |
| Effects.EndedIsStamped | src/shadowops/domain/runs.py:118-130 | in every reachable state a run has a completion time exactly when it has ended, and a failure code and detail exactly when it failed |
| Delivery.OneEventPerVersion | src/shadowops/application/run_execution.py:133-138 | a run has exactly one event for each version 1..n, or 1..n-1 once ended, whose payload names that version and its state |
| Delivery.SentIffReceived | src/shadowops/worker/outbox.py:43-61 | the broker holds an event if and only if a dispatch that found it unpublished and due handed it over, also when the commit was lost |
| Delivery.PublishedWasSent | src/shadowops/worker/outbox.py:43-61 | behind every publication in force is one dispatch at exactly its time: the event was due, the broker accepted it, the commit was kept, and the mark has stood ever since |
| Delivery.ReopeningsAreCounted | src/shadowops/worker/reconciler.py:34-80 | the recorded count of reopenings is the number of reconcile steps that reopened the event |
| Delivery.RecoveryIsBounded | src/shadowops/worker/reconciler.py:44-52 | over any execution an event is reopened at most max_attempts - 1 times |
| Delivery.StaleEventIsRecovered | src/shadowops/worker/reconciler.py:34-80 | a stale delivery is reopened while its budget lasts, then its run fails through one recorded step and no event is added |
| Delivery.NoRunIsLost | src/shadowops/persistence/repositories.py:417-491 | a run that has not ended has an event for its current version that dispatcher or reconciler selects at every late enough time |
| Delivery.ReplayedCreate | src/shadowops/application/runs.py:37-80 | a repeated create returns the run of its key, or a conflict for another request, at any later time, and writes nothing |
| Delivery.FirstCreate | src/shadowops/application/runs.py:37-80 | a create with a new key answers with, and adds, one queued run at version 1 and its one due event, column by column, and nothing else |
| Claims.AtMostTwoRunningRows | src/shadowops/persistence/repositories.py:259-303 | under any reads, the RUNNING rows of a live run are at most two: its main successor at its current version and, only after a cancel of that row's version, one CANCELLED |
| Claims.GrantedClaimIsCoherentIff | src/shadowops/application/run_execution.py:40-87 | whatever was read, a claim granted on a live run is for its current version if and only if the cancellation row it takes over is, when it takes one over, and the run was read at that version otherwise |
| Claims.CurrentReadIsCoherentIff | src/shadowops/application/run_execution.py:40-87 | with the run read as it is, a granted claim is for its current version if and only if it is no cancellation whose key is held by a row of an earlier version |
| Claims.ClaimSucceedsOnceLeasesExpire | src/shadowops/application/run_execution.py:40-87 | after any execution, once all leases of a live run expired, claiming the event of its current version with the rows as they are succeeds |
| Claims.FirstCancelledClaimIff | src/shadowops/application/run_execution.py:47-63 | the first CANCELLED step of a live run is granted if and only if the step read is not a live one of the version read; so it stands beside a live RUNNING step if and only if there is one and the claim missed it, and with the step read as it is, if and only if the run was read at a version it has left |
| Claims.FirstCancelledClaimWaits | src/shadowops/application/run_execution.py:47-63 | so it stands beside a live RUNNING step only if the claim missed that step or read the run at a version it has left, and never when both were read as they are |
| StaleReads.FirstCancellationBesideLiveStep | src/shadowops/application/run_execution.py:47-63 | for every positive lease an execution of four transactions that ends with two live claims, one CANCELLED, on one live run at one version |
| StaleReads.StaleClaimIsForLeftVersion | src/shadowops/application/run_execution.py:40-87 | an execution of five transactions that grants a claim for a version its live run has left |
| StaleReads.CurrentClaimIsForLeftVersion | src/shadowops/persistence/repositories.py:259-303 | after it, and a second cancel, even a claim that reads everything as it is takes over that row and is for the version left |
| StaleReads.HeldKeyServesStaleRead | src/shadowops/persistence/repositories.py:259-303 | an execution in which a claim with a stale read takes over the row of the current version and so is coherent |
| Atomic.AtomicExecutionKeepsCurrent | src/shadowops/persistence/repositories.py:259-303 | with current reads every RUNNING row of a live run is for its current version |
| Atomic.GrantedClaimIsCoherent | src/shadowops/application/run_execution.py:40-87 | with current reads every granted claim, new or taken over, is for the current version, state and target |
| Cancellation.EveryRunOutcome | src/shadowops/persistence/repositories.py:183-203 | for all eight actions and any earlier reads: an action saves a run exactly under its fence, enabling test and version guard, what it then writes, and that otherwise run and outbox stay as they were |
| Cancellation.StepKeepsCancelIff | src/shadowops/persistence/repositories.py:183-203 | one action, with any earlier read, keeps a recorded cancel, its end and its outbox if and only if, should its guards let it save the run, the cancel column it writes is the recorded one |
| Cancellation.CancelStaysIff | src/shadowops/persistence/repositories.py:183-203 | over any execution a recorded cancel stays recorded, with at most one more transition, to CANCELLED or FAILED, and no further event, if and only if every action that passes the guards of a save of the run from then on writes that cancel |
| Atomic.CancelIsFinal | src/shadowops/application/run_execution.py:120-137 | with current reads a recorded cancel always stays so |
| StaleReads.CancelSurvivesFinalizeIff | src/shadowops/persistence/repositories.py:183-203 | a recorded cancel survives a committed finalize if and only if the row that finalize read carried one |
| StaleReads.StaleFinalizeDropsCancel | src/shadowops/persistence/repositories.py:183-203 | a finalize that read before the cancel erases it and the run advances |
| StaleReads.StaleFailDropsCancel | src/shadowops/persistence/repositories.py:183-203 | a failure that read before the cancel erases it |
| StaleReads.StaleCancelMovesCancel | src/shadowops/persistence/repositories.py:183-203 | a second cancel that read before the first overwrites its time |
| StaleReads.StaleRecoveryDropsCancel | src/shadowops/worker/reconciler.py:47-71 | for every budget, a recovery failure that read before the cancel erases it |
| Timeline.TimelineListsEachVersionOnce | src/shadowops/application/run_timeline.py:38-80 | from any listing of the steps, the timeline after a cursor is exactly the later versions in order, each once, with its own step |
| Timeline.EmitAll | src/shadowops/api/routes/run_events.py:127-130 | every event of a poll is emitted in order and the cursor ends at the last of them |
| Timeline.Generate | src/shadowops/api/routes/run_events.py:122-139 | the generator emits what successive polls from its moving cursor hold and stops at the end of the run |
| Timeline.PollDelivers | src/shadowops/application/run_timeline.py:38-80 | a poll whose listing of steps is taken at or after its read of the run yields exactly the versions it owes, in the form they have at every later moment |
| Timeline.StreamIsGapless | src/shadowops/api/routes/run_events.py:122-139 | with commits also between the two reads of a poll, the stream is cursor+1, cursor+2, ... without gap or repeat, and ends by itself exactly on an ended run with the cursor at or past its version |
| Timeline.StreamedEventsShow | src/shadowops/application/run_timeline.py:46-71 | every event a stream emits shows the state its run went through at that version, the creation time for version 1, and for any later one the time, key, attempt, status and error of the one step that finished it |
| Timeline.TimelineHeader | src/shadowops/application/run_timeline.py:72-80 | a timeline names its run and version, says whether it has ended, and shows the current step only while it has not |
| Timeline.ResumedStreamIsTheSame | src/shadowops/api/routes/run_events.py:86-139 | cutting a stream anywhere and resuming from the last identifier gives the sequence of an uncut stream |
| RevisionGraph.CycleSearch.Visit | src/shadowops/repository/alembic.py:410-420 | a visit answers yes only on a cycle; otherwise the revision and what it reaches are finished and the walk is restored |
| RevisionGraph.FindCycle | src/shadowops/repository/alembic.py:405-422 | true if and only if the known revisions have a directed cycle, in any iteration order |
| RevisionGraph.IndexNodes | src/shadowops/repository/alembic.py:291-299 | holds exactly the revisions that occur once, each with its node |
| RevisionGraph.ReportParents | src/shadowops/repository/alembic.py:300-317 | reports exactly the merges and the missing parents |
| RevisionGraph.FindHeads | src/shadowops/repository/alembic.py:318-319 | the sorted list of the revisions no node has as a parent, as often as nodes carry them |
| RevisionGraph.WalkChain | src/shadowops/repository/alembic.py:334-350 | the parent walk, reversed; it meets a seen revision only on a cycle |
| RevisionGraph.WalkIsDistinct | src/shadowops/repository/alembic.py:338-350 | a walk visits known revisions, each once |
| RevisionGraph.WalkFollowsParents | src/shadowops/repository/alembic.py:338-350 | each revision of a walk is followed by its only parent |
| RevisionGraph.ConsecutiveIsContiguous | src/shadowops/repository/alembic.py:360-364 | consecutive positions are exactly a contiguous stretch of changes |
| RevisionGraph.ArePlacedTogether | src/shadowops/repository/alembic.py:360-364 | the position test is true exactly when the changed revisions are side by side on the chain |
| RevisionGraph.Deduplicate | src/shadowops/repository/alembic.py:382-386 | keeps each reason once |
| RevisionGraph.BuildGraph | src/shadowops/repository/alembic.py:285-403 | chain, changed revisions, baseline, heads, verdict and the exact set of reasons, as functions of the bag of nodes and the parse reasons |
| GraphAnswers.GraphMeans | src/shadowops/repository/alembic.py:285-403 | for any nodes, linear or not, read off the nodes alone: the chain is the walk back from the only childless revision or empty, the changed revisions are those of the chain in order, the baseline is the single parent of the first of them, and each reason is given if and only if what it says is so |
| RevisionLinearity.SupportedIffLinear | src/shadowops/repository/alembic.py:285-403 | with no parse reasons, supported if and only if the nodes are one nonempty path of single parents from a parentless root with the changed revisions side by side |
| RevisionLinearity.SupportedGraph | src/shadowops/repository/alembic.py:352-374 | then the target chain is that path, the changed revisions are one stretch of it, and the baseline is the element before the stretch, or none at the root or without changes |
| RevisionLinearity.WalkVisitsAll | src/shadowops/repository/alembic.py:333-357 | without duplicates, merges, missing parents and cycles the walk from the only head visits every revision |
| RevisionLinearity.DisconnectedIsNeverAlone | src/shadowops/repository/alembic.py:351-357 | a graph called disconnected also carries a duplicate, merge, missing-parent or cycle reason |
| RevisionLinearity.NoHeadIsExplained | src/shadowops/repository/alembic.py:318-332 | nodes without a head always carry a cycle or a duplicate reason |
| RevisionLinearity.BuiltGraphIsDetermined | src/shadowops/repository/alembic.py:285-403 | chain, baseline, changed revisions, verdict, reasons and heads do not depend on the order of the files |
| PlanValidator.CycleSearch.Visit | src/shadowops/agent/validator.py:59-69 | a visit answers yes only on a cycle; otherwise a known step and what it reaches are finished |
| PlanValidator.FindCycle | src/shadowops/agent/validator.py:54-71 | true if and only if the known steps have a directed cycle, in any iteration order |
| PlanValidator.AncestorCapabilities | src/shadowops/agent/validator.py:73-84 | the worklist computes its specification and terminates, on cyclic plans too |
| PlanValidator.AncestorsAreDependencies | src/shadowops/agent/validator.py:73-84 | on any plan, what the worklist finds are capabilities of transitive dependencies |
| PlanValidator.AncestorsCompleteIff | src/shadowops/agent/validator.py:73-84 | on any plan the worklist finds the capabilities of all transitive dependencies if and only if it finds those directly behind every dependency that shares its capability with another |
| PlanValidator.AncestorsAreAll | src/shadowops/agent/validator.py:73-84 | a condition to check on the plan alone: when steps that share a capability directly depend on the same capabilities, in particular when none is shared, the worklist finds exactly the capabilities of all transitive dependencies |
| PlanValidator.SharedCapabilityHidesAncestor | src/shadowops/agent/validator.py:79-83 | a plan of catalog capabilities, one of them shared, whose transitive dependency the worklist misses |
| PlanValidator.DictionarySizes | src/shadowops/agent/validator.py:18-23 | the dictionaries are as large as the list exactly when no id, and no capability, repeats |
| PlanValidator.Validate | src/shadowops/agent/validator.py:16-52 | accepts a plan unchanged when nothing is to be reported, otherwise refuses it with exactly the set of errors |
| PlanAnswers.ErrorsMean | src/shadowops/agent/validator.py:16-52 | each error is reported if and only if what it says is so of the steps and the catalog, with the last step standing for a repeated id or capability |
| PlanOrder.LadderHasOneOrder | src/shadowops/agent/validator.py:16-52 | a ladder of steps has exactly one topological order, the catalog's |
| PlanOrder.DependsDirectly | src/shadowops/agent/validator.py:42-49 | in an accepted plan the prerequisite of a step is a direct dependency, though only a transitive one is checked |
| PlanOrder.AcceptedIffLadder | src/shadowops/agent/validator.py:16-52 | on a chain catalog a plan is accepted if and only if it has one step per capability, each within its rules, depending directly on the step before and on no later one |
| PlanOrder.AcceptedHasOneOrder | src/shadowops/agent/validator.py:16-52 | on a chain catalog an accepted plan has one step per capability and exactly one topological order, catalog order |
| ReferencePlanner.CatalogIsChain | src/shadowops/agent/catalog.py:5-62 | the fixed catalog is a chain of mandatory capabilities |
| ReferencePlanner.Invoke | src/shadowops/agent/provider.py:36-57 | one step per capability after the one before it, citing the four smallest distinct evidence ids |
| ReferencePlanner.PlanMeans | src/shadowops/agent/provider.py:37-57 | each step has the name, capability and time limit of its specification, is required, depends on the step before it, and cites at most four observed ids in growing order with no smaller one left out |
| ReferencePlanner.ReferenceAcceptedIff | src/shadowops/agent/provider.py:43-57 | on any chain catalog the reference plan is accepted if and only if all evidence it cites has an allowed prefix |
| Utf8.DecodeEncode | runner/src/shadowops_runner/main.py:30-36 | every text without surrogates is recovered from its bytes |
| Utf8.EncodeDecode | runner/src/shadowops_runner/main.py:34-36 | bytes that decode are the encoding of what they decode to: overlong forms, surrogates and values past the range do not decode |
| Utf8.Examples | runner/src/shadowops_runner/main.py:30-36 | characters of one to four bytes have the bytes of section 7 of RFC 3629 |
| Utf8.PrefixOfBytes | runner/src/shadowops_runner/main.py:32-36 | a text whose bytes begin another's is a prefix of the other |
| BoundedText.Bound | runner/src/shadowops_runner/main.py:29-47 | returns the longest prefix of code points whose bytes fit, trims at most three bytes more than the limit, and re-encodes to the counted and digested bytes |
| BoundedText.LongestFitIsUnique | runner/src/shadowops_runner/main.py:29-47 | there is only one longest fitting prefix |
| Redaction.ReplaceLeavesNone | src/shadowops/sandbox/docker_manager.py:422-423 | replacing the password leaves no occurrence, not even across a replacement |
| Redaction.MaskKeepsNone | src/shadowops/sandbox/docker_manager.py:424-424 | masking named secrets creates no occurrence of the password |
| Redaction.RedactionIsSafeIff | src/shadowops/sandbox/docker_manager.py:422-424 | for a nonempty password without brackets, no output ever shows it if and only if it is not part of the word REDACTED |
| Redaction.LongPasswordsAreSafe | src/shadowops/sandbox/docker_manager.py:422-424 | a password of more than eight characters and no brackets never shows in the output |
| Redaction.GeneratedPasswordsAreSafe | src/shadowops/sandbox/docker_manager.py:100-100 | every password of the generated form, 32 URL-safe characters, never shows, is redacted idempotently and within the growth bound |
| Secrets.ReplaceMarksOccurrences | src/shadowops/sandbox/docker_manager.py:422-423 | replacing splits the text at the occurrences of the password, taken from the left, and joins the parts with the mark |
| Secrets.EmptyPasswordIsEverywhere | src/shadowops/sandbox/docker_manager.py:422-423 | an empty password puts the mark before every character and at the end |
| Secrets.NoSecretIsShown | src/shadowops/sandbox/docker_manager.py:422-424 | wherever the output holds password, token or secret in any case, an equals sign and a value, the value is the mark and nothing else |
| Secrets.MaskReplacesValues | src/shadowops/sandbox/docker_manager.py:424-424 | masking puts the mark in place of whole values behind the names of secrets and leaves all other text alone |
| Redaction.BracketedPasswordLeaks | src/shadowops/sandbox/docker_manager.py:422-424 | a password with a bracket and an input whose output shows it |
| Redaction.MaskTwice | src/shadowops/sandbox/docker_manager.py:424-424 | masking is idempotent on every text |
| Redaction.RedactTwice | src/shadowops/sandbox/docker_manager.py:422-424 | redacting twice is redacting once |
| Redaction.RedactGrowth | src/shadowops/sandbox/docker_manager.py:422-424 | with a password of at least ten bytes seven times the output is at most sixteen times the input, in bytes |
| Evidence.GrowthIsReached | src/shadowops/sandbox/docker_manager.py:422-424 | the growth bound is attained |
| Evidence.RedactedOutputFits | src/shadowops/evidence/store.py:30-32 | redacted output of any allowed limit fits the evidence budget |
| Evidence.RedactedArtifact | src/shadowops/sandbox/docker_manager.py:426-434 | a redacted artifact passes the receiver's size and digest check and keeps the truncation mark |
| Evidence.ArtifactStore.Put | src/shadowops/evidence/store.py:30-58 | refuses exactly what is over budget or meets a corrupt file, otherwise stores the content under its digest once |
| Evidence.StoreOutput | src/shadowops/evidence/collector.py:35-36 | whatever a stream printed, its bounded and redacted text is always stored when it is not empty |
| GitStatus.WorkingChanges | src/shadowops/repository/git.py:125-154 | the record loop computes the listed changes, with the first malformed or unsafe record refusing the output |
| GitStatus.PrintedStatusIsRecovered | src/shadowops/repository/git.py:125-154 | printed status is recovered exactly: the non-excluded changes, sorted, or a refusal if and only if a path is unsafe |
| GitReports.ReportedChanges | src/shadowops/repository/git.py:125-154 | of accepted printed status each entry that is not excluded is reported, as often as there are such entries, with its own path and its two columns without the blanks around them, ordered by path and then by status |
| GitReports.InvalidRecordIsRefused | src/shadowops/repository/git.py:136-140 | a record with a status that is not ASCII or a path that is not UTF-8 refuses the output as invalid, unless an unsafe path stands before it |
| GitReports.SafePathStaysBelow | src/shadowops/repository/security.py:30-37 | a path is accepted if and only if it has no NUL and following its parts from the root visits each of them and nothing else, so it never leaves the root |
| GitReports.PartsJoin | src/shadowops/repository/security.py:33-33 | the parts of a path hold no slash, and joined by slashes they are the path |
| GitStatus.ChangesAreEntries | src/shadowops/repository/git.py:141-153 | a change is reported exactly for an entry of its own with its stripped status, so an original path alone never is |

## Left out

- Docker provisioning, readiness, cleanup and sweeping, snapshot files, Git processes and the runner's live database work: their behaviour belongs to those systems.
- HTTP routing, schemas, settings, the CLI, logging, and parsing of the stream cursor header: plumbing.
- Run columns that no guard reads (repository, refs, cleanup status) and the handler version of a step: they would only add fields to rows.
- Isolation below a statement: each single read and each group of guarded writes sees one committed state. Locked rows of a batch, and a run it saved, are unchanged by others until its commit; other row locks are not modelled.
- Delivery order of a worker's own calls: any order of claims, heartbeats, finalizes and failures is covered, so the order in which one task makes them is not singled out.
- Lease exclusivity after a cancel, and the absence of RUNNING rows on ended runs: the code does not provide them.
- Atomic.CancelIsFinal: is stated for transactions that read the current rows, because with stale reads it is false; Cancellation.CancelStaysIff gives the exact condition.
- Atomic.GrantedClaimIsCoherent: is stated for transactions that read the current rows, because with stale reads it is false; Claims.GrantedClaimIsCoherentIff gives the exact condition.
- Atomic.AtomicExecutionKeepsCurrent: is stated for transactions that read the current rows, because StaleReads.StaleClaimIsForLeftVersion shows it is false without; Claims.AtMostTwoRunningRows says what holds under any reads.
- PassEffects.PassSparesLiveSteps: speaks of steps live when the pass selects its rows; a step that starts later is not spared by the code.
- PlanValidator.AncestorsCompleteIff: its condition refers to what the worklist found; the condition of PlanValidator.AncestorsAreAll, read off the plan, is sufficient, and which of two sharing steps is expanded depends on the order of the dependency lists.
- Redaction.BracketedPasswordLeaks: shows why brackets are excluded; no generated password has one.
- `_range_changes` and `tree_entries`: the same kind of record loop without the rename rule.
- A timeline request for an unknown run: the lookup error is not modelled.
- Retry delay arithmetic: the time of the next attempt is a parameter.
- RevisionGraph.BuildGraph: does not fix the order of the reasons, which follows the order of the files; it fixes which there are, each once. The listing of the nodes by path is left out.
- PlanValidator.Validate: gives the errors as a set; their rendering as sorted strings is left out. Capability names outside the catalog are excluded by the enumeration type.
- GitStatus.WorkingChanges: leaves out the content hash of a change, which reads the working tree; the exclusion rule is a parameter.
- Evidence.ArtifactStore.Put: models the directory as a map; temporary files, renames and syncing are left out.
- Redaction of the error detail: the result is not checked again against its length limit, so no bound is claimed for it.
- Python AST parsing of revision files, the static rules, and recursion depth limits: the model recurses without a bound.
