# Verified model of the UMP coordination core

UMP lets a coordinator hand a plan (a directed graph of steps) to robots over an
unreliable network. Its promise is conservative: a step's physical work is started at
most once, only after everything it depends on has succeeded, and what the coordinator
believes about a step is what the robot durably recorded, whichever process crashes
whenever. The promise rests on four durable stores (the coordinator's run store, each
robot's assignment journal, the outbound queue and the inbox with its replay floors) and
on the handlers that drive them. This project models those stores and handlers and proves
the promise over every run.

`dafny verify dfyconfig.toml` checks everything.

## How the model is built

* Each store transaction is one atomic step. It is written once as a function of the
  stored tables and once as a method of a class that updates the tables in place; the
  method's contract equates the two.
* Handlers that run in several threads, or that re-enter themselves (the in-memory bus
  delivers synchronously, so dispatching one step can deliver an outcome that dispatches
  others while the first ready list is still being read), are state machines whose steps
  are the store operations, so every interleaving and a crash between any two of them is
  a run.
* The network loses, repeats and reorders: a message once sent may be delivered at any
  later time, any number of times, or never.

| file | contents |
|---|---|
| `Ump.dfy` | shared vocabulary |
| `PlanGraph.dfy` | plan validation and the depth-first cycle check |
| `RunStore.dfy`, `CoordinatorStore.dfy` | the run store: transactions and the class |
| `RunHistory.dfy`, `Scheduler.dfy` | what every history of transactions keeps; dependencies and progress |
| `Journal.dfy`, `JournalStores.dfy` | the assignment journal, both implementations, and their equivalence |
| `Participant.dfy`, `Answers.dfy` | one robot: executor, cancellation, queries, operator, crash; and what it answers to each message |
| `Deployment.dfy`, `Handlers.dfy`, `Guarantees.dfy` | coordinator, robots and network together, what each coordinator handler does, and what holds in every reachable state |
| `Boundaries.dfy` | runs from the initial state that show where the deployment's promises end |
| `Orphans.dfy` | which unsettled steps can still come to a known outcome |
| `Outbox.dfy`, `Admission.dfy`, `OutboxStore.dfy` | the outbound queue, when it admits a batch, its capacity, and `flush` |
| `Receiver.dfy`, `MessageServer.dfy`, `Handling.dfy` | the receive path, the class that performs it, and the workers |
| `Overlap.dfy` | connections that carry the same message at once |
| `Rehandling.dfy` | when a message is handled a second time |
| `Channel.dfy`, `Sender.dfy` | senders and receiver together: first-in first-out handling |
| `Delivery.dfy`, `Ordering.dfy` | delivery never wedges; order beyond a lane |
| `Replay.dfy`, `Recency.dfy` | the durable and the bounded replay protector, and what the bounded one remembers |
| `Authority.dfy` | authority leases |
| `Registry.dfy` | the registry of peers |

## Where the natural claim is false

The code is modelled as it is; each of these is a failing run or input together with the
exact condition under which the claim holds.

* An active run with nothing in flight can have nothing to dispatch: exactly when every
  pending step is behind a cancelled one (`Scheduler.StuckExactlyBehindCancelled`). One
  cancelled outcome is enough (`Boundaries.CancelledFirstStepSticks`,
  `Guarantees.CancelledReportSticks`), and then the run stays so for ever
  (`Guarantees.StuckForever`).
* A step can be dispatched after its run has left ACTIVE, from a ready list fetched earlier
  (`Boundaries.DispatchAfterFailure`): exactly when some step of the plan has failed, was
  rejected or is unknown (`Guarantees.SendsIntoInactiveRunExactly`). Its dependencies have
  nevertheless all succeeded (`Guarantees.PublishedAfterDependencies`).
* The coordinator's terminal record of a step is backed by the robot's journal in every
  reachable state exactly for successes and failures
  (`Boundaries.BackedExactlyForSuccessAndFailure`); it can record a rejection of work that
  succeeded (`Boundaries.RejectedAlthoughSucceeded`).
* `docs/PROTOCOL.md` lines 114-116 say that a repeated assignment returns the recorded outcome. The
  code checks admission first, so this holds exactly while the message is still
  admissible, or if what is recorded is that very rejection
  (`Participant.RepeatReplaysExactlyWhenAdmitted`).
* `docs/PROTOCOL.md` line 121 says that a terminal outcome is recorded before it is published.
  That holds exactly for successes, failures and cancellations
  (`Participant.RecordedExactlyWhenDefinite`).
* The dictionary journal compares outputs as values and the durable one as encoded text: they
  give the same replies exactly on histories in which no completion respells a recorded
  outcome (`JournalStores.MemoryRefinesSqlite`, `JournalStores.RespellingTellsJournalsApart`).
* An acknowledged message can be lost when two open connections carry it
  (`Receiver.OverlapLosesAcknowledgedMessage`). Every history keeps what it acknowledged
  exactly if no two do (`Overlap.NeverLosesExactlyWithoutOverlap`), and a stored message can
  still be lost exactly while its row is staged and the connection that inserted it has not
  passed its judgement (`Overlap.LostExactlyWhenAtRisk`). The receive-path guarantees assume
  that no two open connections carry the same message, and nothing else about concurrency.
* A step in flight or unknown can no longer come to a known outcome exactly when it was
  neither published nor is about to be (`Orphans.SettledExactlyWhenSent`), which a crash
  between marking and publishing brings about (`Orphans.CrashBeforePublishOrphans`).
* The bounded replay cache decides like the durable one exactly when the lanes in use fit
  into it (`Replay.AgreementExactlyWithinCapacity`).
* The `expired` lease filter also returns leases that are not yet valid; it is exact at
  every time exactly for leases at least twice as long as their uncertainty
  (`Authority.ExpiredFilterExactForLongLeases`).
* `docs/NETWORK_PROFILE.md` lines 54-55 say that a duplicate is not processed twice. A message can be
  started twice (`Rehandling.HandledTwice`): once begun, it is started again in some
  continuation exactly as long as its handling has not finished
  (`Rehandling.RestartsExactlyWhenUnfinished`), and only after a crash
  (`Handling.HandledAgainOnlyAfterCrash`).
* `docs/NETWORK_PROFILE.md` lines 73-74 promise order per source. Two messages of one source are started in
  queue order in every run exactly when they share the stream and either share the session
  or the earlier one is the first of its session (`Ordering.KeepsOrderExactly`).

## Model

| member | source | states |
|---|---|---|
| `PlanGraph.CycleCheck.Visit` | src/ump/collaboration.py:82-95 | Terminates; success leaves the shared sets as they were apart from finished steps, all of whose dependencies finished before; failure exhibits a cycle that is a final part of the visiting stack, closed by its first step. |
| `PlanGraph.CheckDependencies` | src/ump/collaboration.py:82-97 | Accepts a dependency-closed graph exactly when it is acyclic, with a topological order as evidence, or a real cycle on rejection. |
| `PlanGraph.FaultOf` | src/ump/collaboration.py:62-79 | Names the first check a step fails; none exactly for admissible steps. |
| `PlanGraph.NamesFirstFault` | src/ump/collaboration.py:62-79 | Each fault has its own meaning for a step, and the one named is the first, in the order of the checks, that the step has. |
| `PlanGraph.CollectGraph` | src/ump/collaboration.py:57-81 | Succeeds exactly when every step is admissible, and then returns the plan's dependency graph; otherwise names the first faulty step and its first fault. |
| `PlanGraph.ValidatePlan` | src/ump/collaboration.py:47-97 | Accepts exactly the plans that fit, have non-empty identifiers and are valid, a notion that mentions a topological order and no search; each refusal of the plan as a whole has its exact condition, a step error names the first fault and a cycle error means there is a cycle. |
| `PlanGraph.TopologicalIsAcyclic` | src/ump/collaboration.py:82-97 | A graph with a topological order has no cycle of any length. |
| `PlanGraph.WaitingLeadsToStopped` | src/ump/coordinator_store.py:354-381 | If every waiting step depends on a waiting or stopped one, a dependency path leads from each to a stopped one. |
| `CoordinatorStore.Store.RecoverInterruptedRuns` | src/ump/coordinator_store.py:257-292 | Exactly the dispatched, accepted and cancellation-requested steps become unknown, and exactly the runs that have one. |
| `CoordinatorStore.Store.CreateRun` | src/ump/coordinator_store.py:294-352 | Inserts the run and all its steps, pending, after the stored ones, or nothing; the same goal and plan again change nothing, another under the same identifier is a conflict, and a batch is refused exactly if something in it repeats or is stored. |
| `RunStore.InsertsExactly` | src/ump/coordinator_store.py:330-348 | The rows of a batch can be inserted one by one exactly when no identifier or step in it repeats or is stored already. |
| `CoordinatorStore.Store.ReadyAssignments` | src/ump/coordinator_store.py:354-381 | Lists, while the run is active, exactly the ready rows, once each in rowid order; nothing for a run that is not active. |
| `RunStore.ReadyMeans` | src/ump/coordinator_store.py:354-381 | A row is ready exactly if it is pending and its dependencies all have a succeeded row. |
| `CoordinatorStore.Store.MarkDispatched` | src/ump/coordinator_store.py:404-418 | Compare-and-set: won exactly by a pending row, which becomes dispatched; every other row, all runs and the order stay. |
| `CoordinatorStore.Store.RefreshRun` | src/ump/coordinator_store.py:625-645 | The stored status says exactly what the plan's rows are: some unknown; none unknown and some failed or rejected; all succeeded; all succeeded or cancelled and not all succeeded. Nothing else changes. |
| `CoordinatorStore.Store.RequestCancellation` | src/ump/coordinator_store.py:420-475 | Exactly the pending steps become cancelled and exactly the dispatched, accepted and unknown ones cancellation-requested; the assignments of the latter are returned, once each in rowid order. |
| `CoordinatorStore.Store.RecordCancellationAck` | src/ump/coordinator_store.py:477-504 | Exactly a refused cancellation request makes the step unknown; no other step changes. |
| `CoordinatorStore.Store.Transition` | src/ump/coordinator_store.py:572-623 | Terminal steps are immutable, a success moves an open step to the target, and no other step changes; a late acknowledgement is ignored, and exactly a contradicting outcome and a step not yet sent are refused. |
| `CoordinatorStore.Store.ReconcileOutcome` | src/ump/coordinator_store.py:534-570 | Only an unknown step can be reconciled, it takes the very outcome told, and no other step changes; each refusal has its exact condition. |
| `RunHistory.Transactions` | src/ump/coordinator_store.py:404-623 | Every transaction but a creation keeps all plans and assignments and moves steps only along the lifecycle. |
| `RunHistory.OutcomesAreRecordedAsTheyAre` | src/ump/coordinator_store.py:520-532 | An outcome gives a step in flight its own status, each of the five a different one; every other step and any step not in flight stays. |
| `RunHistory.UnknownIsReconciledAsTold` | src/ump/coordinator_store.py:534-570 | Reconciliation gives exactly unknown steps the known outcome it is told, each of the four a different status. |
| `RunHistory.AcknowledgementsAreRecordedAsTheyAre` | src/ump/coordinator_store.py:506-518 | An acknowledgement moves only a dispatched or accepted step, to accepted, rejected or unknown as it says; it is refused exactly for a pending step or one whose cancellation was requested. |
| `RunHistory.RefusedCancellationIsUnknown` | src/ump/coordinator_store.py:477-504 | A refused cancellation makes exactly the step it was requested for unknown. |
| `RunHistory.DispatchKeepsClass` | src/ump/coordinator_store.py:404-418 | Dispatching never changes what the statuses classify as, which is why it needs no refresh. |
| `RunHistory.RecoveryKeepsCache` | src/ump/coordinator_store.py:257-292 | Recovery, which does not refresh, keeps every cached status correct. |
| `RunHistory.ApplyKeepsInv` | src/ump/coordinator_store.py:257-645 | Every transaction keeps the tables consistent and the cached status correct. |
| `RunHistory.CacheIsAlwaysCorrect` | src/ump/coordinator_store.py:625-645 | After any history a run is succeeded iff all its steps succeeded, cancelled iff all succeeded or were cancelled and one was cancelled, failed iff none is unknown and one failed or was rejected, unknown iff one is unknown, and active otherwise. |
| `RunHistory.KnownOutcomesAreFinal` | src/ump/coordinator_store.py:572-623 | Succeeded, failed, rejected and cancelled steps never change again. |
| `RunHistory.FinishedRunsAbsorb` | src/ump/coordinator_store.py:625-645 | Succeeded and cancelled runs are absorbing. |
| `RunHistory.FailureSticks` | src/ump/coordinator_store.py:625-645 | Once a step failed or was rejected the run is failed or unknown for ever. |
| `Scheduler.TransitiveDependenciesSucceeded` | src/ump/coordinator_store.py:354-381 | Everything reachable along dependencies from a sent step has succeeded. |
| `Scheduler.StuckExactlyBehindCancelled` | src/ump/coordinator_store.py:354-381 | An active idle run has nothing ready if and only if every pending step is behind a cancelled one. |
| `Scheduler.IdleActiveRunHasReadyWork` | src/ump/coordinator_store.py:354-381 | Without a cancelled step, an active run with nothing in flight always has ready work. |
| `Scheduler.PendingMoves` | src/ump/coordinator_store.py:404-475 | Only a dispatch or its plan's cancellation moves a pending step. |
| `Scheduler.CancelledOutcomeSticks` | src/ump/coordinator_store.py:625-645 | When the only step in flight is reported cancelled, the run gets stuck exactly if beforehand pending steps remain and each leads to that step or to a cancelled one. |
| `Scheduler.PendingRunIsActiveExactly` | src/ump/coordinator_store.py:625-645 | The run of a pending step is active exactly when none of its steps failed, was rejected or is unknown. |
| `Journal.CallKeepsInv` | src/ump/journal.py:268-448 | Every journal call and a restart keep rows, outcomes and reservations consistent. |
| `Journal.ReservationsAreExact` | src/ump/journal.py:268-371 | In every state a resource is reserved by an assignment exactly when the assignment lists it and is accepted or unknown. |
| `Journal.ResourcesAreExclusive` | src/ump/journal.py:273-339 | No two unresolved assignments share a resource. |
| `Journal.ClaimNeverFails` | src/ump/journal.py:273-339 | With duplicate-free resource lists a claim never hits the reservation table's key. |
| `Journal.OutcomesAreImmutable` | src/ump/journal.py:341-371 | A recorded outcome survives every later call and restart unchanged. |
| `Journal.UnknownOutcomeKeepsResources` | src/ump/journal.py:341-371 | Work recorded as unknown holds its resources in every continuation. |
| `Journal.ClaimedOnce` | src/ump/journal.py:273-339 | An identifier is claimed as new at most once, restarts included. |
| `Journal.ClaimedIsFound` | src/ump/journal.py:373-390 | What is in the journal is found in every continuation, under the same assignment and issuer; what is not is not found. |
| `JournalStores.SqliteJournal.Claim` | src/ump/journal.py:273-339 | New, replay, conflict, resource conflict or uncertain, each exactly when the stored rows and reservations say so; a new claim adds one accepted row and reserves all its resources, anything else changes nothing. |
| `JournalStores.SqliteJournal.Complete` | src/ump/journal.py:341-371 | Records an outcome for exactly the claimed assignment, refuses exactly a different one later, and releases exactly its reservations unless the outcome is unknown. |
| `JournalStores.SqliteJournal.ResolveUnknown` | src/ump/journal.py:392-448 | Resolves exactly unknown work without an outcome, once, with documented evidence: the outcome is recorded and filed and the reservations are released. |
| `JournalStores.SqliteJournal.Reopen` | src/ump/journal.py:268-271 | Exactly the accepted rows without an outcome become unknown; reservations and resolutions stay. |
| `JournalStores.MemoryJournal.Claim` | src/ump/journal.py:124-153 | The dictionary form of the same decision. |
| `JournalStores.MemoryJournal.Complete` | src/ump/journal.py:155-173 | The dictionary form, releasing the resources held. |
| `JournalStores.MemoryJournal.ResolveUnknown` | src/ump/journal.py:178-202 | The dictionary form, built on completion. |
| `JournalStores.SameReply` | src/ump/journal.py:119-448 | From corresponding states both journals answer a call alike, and stay in correspondence, exactly when it does not respell a recorded outcome. |
| `JournalStores.MemoryRefinesSqlite` | src/ump/journal.py:119-448 | On a restart-free history the two journals give the same replies if and only if no completion respells a recorded outcome. |
| `JournalStores.RespellingTellsJournalsApart` | src/ump/journal.py:155-173 | Completing twice with outputs of equal value and different encoding is accepted by the one and refused by the other. |
| `Participant.ActKeepsInv` | src/ump/runtime.py:444-762 | Every robot step, at journal-operation granularity, keeps messages truthful and starts unique. |
| `Participant.SingleTruth` | src/ump/runtime.py:608-719 | In every interleaving of executor, cancellation, operator and crash, all success, failure and cancellation reports for an assignment are identical and equal the journal. |
| `Participant.NativeStartsOnce` | src/ump/runtime.py:521-610 | Native work starts at most once per assignment identifier. |
| `Participant.RecordedExactlyWhenDefinite` | src/ump/runtime.py:533-574 | Reports of a status are always recorded if and only if the status is success, failure or cancellation. |
| `Participant.RepeatReplaysExactlyWhenAdmitted` | src/ump/runtime.py:469-532 | A repeated assignment starts nothing and is answered with the recorded outcome if and only if it passes the admission checks or that outcome is the same rejection. |
| `Answers.AssignmentAnswers` | src/ump/runtime.py:521-605 | By what the journal holds, an admitted assignment is accepted and reserved if new with free resources, rejected if a resource is reserved or the identifier stands for something else, replayed if it has an outcome, and unknown if it has none; the messages are exactly those. |
| `Answers.AdmissionIsExact` | src/ump/runtime.py:469-520 | An assignment reaches the journal exactly inside its closed time window, authorized, for an advertised capability and with conforming input; otherwise it is rejected, whatever the journal holds. |
| `Answers.QueryAnswers` | src/ump/runtime.py:640-667 | A query is answered for the issuer alone, with exactly what the journal holds. |
| `Answers.CancellationAnswers` | src/ump/runtime.py:669-698 | A cancellation is answered at once for finished and for unknown work; only accepted work without an outcome is put to the adapter. |
| `Answers.NativeCancelAnswers` | src/ump/runtime.py:699-714 | A refusal of the adapter is passed on and ends the matter; a grant becomes a cancelled outcome still to be recorded. |
| `Answers.ReportsExactlyWhatIsTaken` | src/ump/runtime.py:631-719 | An outcome, and the grant of a cancellation, are sent exactly if the journal takes the outcome. |
| `Answers.LatestOutcomeWins` | src/ump/runtime.py:631-637 | A task that finds an outcome recorded meanwhile reports that one. |
| `Answers.ResolutionIsRecorded` | src/ump/journal.py:392-448 | An operator's resolution changes the journal exactly for unknown work without an outcome. |
| `Answers.CrashInterrupts` | src/ump/journal.py:268-271 | After a crash or an opening exactly the accepted work without an outcome is unknown, and after a crash no task is left. |
| `Answers.RepliesAreKept` | src/ump/runtime.py:444-762 | In every run an acceptance names journaled work, an acknowledged success, failure or cancellation is the recorded one, a granted cancellation is recorded as cancelled, and `already terminal` means a recorded outcome. |
| `Answers.OutcomesComeFromWork` | src/ump/runtime.py:608-719 | In every run whatever has an outcome in the journal was natively begun, unless an operator resolved it or it was cancelled. |
| `Deployment.StepKeepsInv` | src/ump/collaboration.py:140-388 | Every coordinator handler, dispatch step, robot step and restart keeps the deployment invariant. |
| `Handlers.ReportIsRecorded` | src/ump/collaboration.py:140-160 | A report settles the step with the very outcome it carries: a step in flight if the step was not seen unknown, an unknown one if it was and the outcome is known; otherwise no step changes. |
| `Handlers.AcknowledgementIsRecorded` | src/ump/collaboration.py:162-173 | An acknowledgement of acceptance, rejection or uncertainty moves a dispatched or accepted step accordingly, and nothing else. |
| `Handlers.CancelReplyIsRecorded` | src/ump/collaboration.py:175-191 | Of the four cancellation replies a refusal and an uncertain one make the step unknown, the other two leave it waiting. |
| `Handlers.SnapshotReconciles` | src/ump/collaboration.py:193-230 | A snapshot settles exactly an unknown step, of the very assignment, with the known outcome it carries. |
| `Handlers.StrangersAreIgnored` | src/ump/collaboration.py:140-205 | What another robot says about a step, or anyone about a step that does not exist, changes nothing. |
| `Handlers.CancellationReachesRobots` | src/ump/collaboration.py:373-388 | Cancelling a plan sends a request for exactly its dispatched, accepted and unknown steps, each to its own robot. |
| `Handlers.RequestedIsAsked` | src/ump/collaboration.py:373-388 | Every step that just came to wait for a cancellation has had its own robot asked for it. |
| `Handlers.ReconciliationAsksRobots` | src/ump/collaboration.py:361-371 | Reconciling a plan asks exactly the robots of its unknown steps about each. |
| `Handlers.TurnOfLoop` | src/ump/collaboration.py:303-306 | One turn of a dispatch loop wins the next assignment exactly if its step is pending, and keeps the rest of the list. |
| `Handlers.WonIsPublished` | src/ump/collaboration.py:303-306 | A won assignment is published to its robot, and the loop goes on with the rest of its list. |
| `Handlers.NothingListedIsSkipped` | src/ump/collaboration.py:303-306 | A dispatch loop that no restart cuts off skips nothing: in every later state each assignment of its list is still to come or no longer pending. |
| `Guarantees.PublishedAtMostOnce` | src/ump/collaboration.py:303-306 | In every reachable state each plan step was published at most once, however often dispatching re-entered itself. |
| `Guarantees.PhysicalWorkAtMostOnce` | src/ump/runtime.py:521-610 | Native execution of each plan step starts at most once over all robots. |
| `Guarantees.PublishedAfterDependencies` | src/ump/collaboration.py:303-306 | Everything a published step transitively depends on has a row recorded as succeeded. |
| `Guarantees.WorkAfterDependencies` | src/ump/runtime.py:521-610 | The same for native work. |
| `Guarantees.StuckExactlyWhenBehindCancelled` | src/ump/coordinator_store.py:354-381 | The progress condition in every reachable state. |
| `Guarantees.AgreementIsPermanent` | src/ump/collaboration.py:140-230 | A step recorded as succeeded has a success in its robot's journal and one recorded as failed a failure, the very same outcome in every later state. |
| `Guarantees.StuckForever` | src/ump/coordinator_store.py:625-645 | A stuck run stays active and stuck in every later state of the deployment until its own cancellation is requested. |
| `Guarantees.CancelledReportSticks` | src/ump/collaboration.py:140-160 | The same for a cancelled report in every reachable state, with a condition on the state before the report. |
| `Guarantees.SendsIntoInactiveRunExactly` | src/ump/collaboration.py:303-306 | A loop that still holds a pending step sends it, into a run that is not active exactly when some step of the plan failed, was rejected or is unknown. |
| `Boundaries.StaleListSendsIntoFailedRun` | src/ump/collaboration.py:303-306 | From any fetched list whose first step is sent and rejected, the second is sent into the failed run, for which a new list would be empty. |
| `Boundaries.DispatchAfterFailure` | src/ump/collaboration.py:303-306 | That run exists from the initial state for every plan of two independent steps. |
| `Boundaries.CancelledFirstStepSticks` | src/ump/coordinator_store.py:625-645 | A run that ends stuck exists for every plan of two steps of which the second needs the first. |
| `Boundaries.RejectedAlthoughSucceeded` | src/ump/runtime.py:469-521 | A reachable state in which the coordinator recorded a rejection and the journal a success. |
| `Boundaries.UnknownWithoutJournal` | src/ump/coordinator_store.py:257-292 | A reachable state in which a recovered step is unknown and its robot has never heard of it. |
| `Boundaries.CancelledWithoutJournal` | src/ump/coordinator_store.py:420-475 | A reachable state in which a step is cancelled without ever having been sent. |
| `Boundaries.BackedExactlyForSuccessAndFailure` | src/ump/collaboration.py:140-160 | Of the coordinator's terminal records exactly successes and failures are always backed by an outcome of the same meaning in the robot's journal. |
| `Orphans.OrphanForever` | src/ump/collaboration.py:303-306 | A step that was marked but is neither published nor about to be stays in flight or unknown in every later state. |
| `Orphans.SettledExactlyWhenSent` | src/ump/collaboration.py:303-306 | A step in flight or unknown, of a robot that exists, can still come to a known outcome if and only if it was published or some dispatch loop is about to publish it. |
| `Orphans.CrashBeforePublishOrphans` | src/ump/collaboration.py:303-306 | Such a step exists after a coordinator crash between marking and publishing, with or without recovery. |
| `Participant.NewMessageSubject` | src/ump/runtime.py:444-762 | A robot speaks only of assignments in its journal or the one just received. |
| `Outbox.BackoffSchedule` | src/ump/delivery.py:291-320 | Delays start at 250 ms, never shrink, double up to 30000 ms and are that from the eighth failure on. |
| `Outbox.CapacityIsRespected` | src/ump/delivery.py:151-236 | After any history pending rows are within the maximum, operational ones leave the reserve free, and keys are unique. |
| `Outbox.SafetyIsAlwaysAdmitted` | src/ump/delivery.py:151-236 | A safety batch that fits the reserve is admitted, however full the queue is otherwise, if and only if it is consistent and its new rows have unused slots. |
| `Outbox.RepeatedBatchIsIgnored` | src/ump/delivery.py:151-236 | Enqueueing an accepted batch again changes nothing and succeeds. |
| `Admission.AdmissionIsExact` | src/ump/delivery.py:151-209 | A batch is refused for the first of: one identifier for two contents, more pending rows than the maximum, more operational ones than the reserve leaves room for, a sequence number in use; and admitted without any. Counts are cardinalities of sets of rows and keys. |
| `Admission.AdmittedRows` | src/ump/delivery.py:205-231 | An admitted batch leaves the old rows as they were and appends one pending row, due at once and never attempted, for each new key; every message of the batch is then stored. |
| `Admission.NewItemsKeepOrder` | src/ump/delivery.py:158-190 | New messages are stored in the order in which the batch first mentions them. |
| `Admission.PendingStaysWithin` | src/ump/delivery.py:151-236 | After any history the pending rows, counted as a set, are within the maximum and leave the reserve free. |
| `OutboxStore.EnqueueKeepsPrefix` | src/ump/delivery.py:151-236 | Admission keeps delivered rows a prefix of their lane. |
| `OutboxStore.Queue.Screen` | src/ump/delivery.py:165-189 | Collects exactly the new items in order, or detects exactly the clashing batches. |
| `OutboxStore.Queue.EnqueueMany` | src/ump/delivery.py:151-236 | All or nothing, with the first applicable refusal. |
| `OutboxStore.Queue.Ready` | src/ump/delivery.py:238-273 | For one stream or both, the eligible lane heads up to the limit, safety first, then by age, then by peer identifier, none omitted while there is room. |
| `OutboxStore.EligibleMeans` | src/ump/delivery.py:253-266 | A row may be attempted exactly if it is pending, due, of a wanted stream and first of its recipient's pending rows in that stream. |
| `OutboxStore.ReadyListMeans` | src/ump/delivery.py:238-273 | A ready list has as many of those rows as fit, one of each lane, safety first, then by age, then by recipient. |
| `OutboxStore.Queue.Attempt` | src/ump/network.py:930-967 | Delivers on success, otherwise counts the failure and schedules the retry. |
| `OutboxStore.Queue.Round` | src/ump/network.py:930-967 | Attempts every listed row once and no other row; the delivered rows of each lane stay a prefix. |
| `OutboxStore.Queue.Flush` | src/ump/network.py:902-970 | Terminates, delivers at most the limit, attempts each row at most once, lets nothing overtake a failed message of its lane, and leaves nothing eligible unless the limit was reached. |
| `OutboxStore.Queue.FlushAll` | src/ump/network.py:911-917 | Everything `Flush` promises for both streams together; safety first, operational rows only with what is left of the limit. |
| `Receiver.StepKeepsInv` | src/ump/network.py:393-433 | Every step of a connection, a worker or a crash keeps acknowledged and activated messages stored. |
| `Handling.AcknowledgedIsNeverLost` | src/ump/network.py:393-433 | Every acknowledged message stays in the inbox past staged in every continuation. |
| `Receiver.OverlapLosesAcknowledgedMessage` | src/ump/network.py:393-433 | The run in which two connections for one message acknowledge it and discard its row. |
| `Overlap.LostExactlyWhenAtRisk` | src/ump/network.py:393-433 | A stored message can be lost in some continuation, and also acknowledged and lost, if and only if its row is still staged and the connection that inserted it may yet discard it. |
| `Overlap.NeverLosesExactlyWithoutOverlap` | src/ump/network.py:393-433 | With at most c open connections for one message, every history keeps what it acknowledged if and only if c is at most one. |
| `Receiver.ServedExactlyWhenAcceptable` | src/ump/network.py:393-433 | A connection ends with one activated row and an acknowledgement exactly for acceptable messages, and leaves the inbox alone otherwise. |
| `Receiver.CrashAnywhere` | src/ump/network.py:393-433 | A crash between any two steps leaves an acceptable message acceptable, and retained once staged. |
| `Receiver.DropEndsConnection` | src/ump/network.py:393-433 | A connection that breaks leaves the inbox, the floors and every other connection as they were. |
| `Receiver.RetrySucceedsAfterCrash` | src/ump/network.py:393-433 | Whatever happens after such a crash, an exact retry ends with one activated row and an acknowledgement. |
| `MessageServer.Server.Enqueue` | src/ump/delivery.py:433-471 | Stores a new message, recognises an identical one, refuses a conflicting one. |
| `MessageServer.Server.ActivateMessage` | src/ump/delivery.py:473-482 | Afterwards no row of that identifier is staged; only such a row changed, and no row was added or lost. |
| `MessageServer.Server.Discard` | src/ump/delivery.py:484-489 | Removes only staged rows of that identifier, leaves none, and changes no other row. |
| `MessageServer.Server.Contains` | src/ump/delivery.py:491-498 | Whether the exact message is stored. |
| `MessageServer.Server.HandleConnection` | src/ump/network.py:393-433 | The program performs the specified steps and sends a receipt exactly for acceptable messages, `received` exactly for new ones. |
| `MessageServer.Server.Claim` | src/ump/delivery.py:500-533 | Takes a received row with no earlier unfinished row of its lane: the first claimable safety row, or without one the first claimable row; marks it and logs the start; none is left unclaimed when it returns nothing. |
| `MessageServer.Server.Finish` | src/ump/delivery.py:548-562 | Records success or a dead letter for that row alone and logs the end of its handling. |
| `MessageServer.Server.Reopen` | src/ump/delivery.py:383-385 | A restart returns exactly the interrupted rows to received. |
| `Handling.StepKeepsLog` | src/ump/delivery.py:500-562 | Each row's status agrees with the log of handler starts and ends. |
| `Handling.HandledAgainOnlyAfterCrash` | src/ump/delivery.py:383-385 | Between two starts of a message lies a crash, and the message was not finished before the second. |
| `Rehandling.HandledTwice` | src/ump/delivery.py:383-385 | The run in which a crash during handling makes a message start twice. |
| `Rehandling.Drain` | src/ump/delivery.py:500-562 | Workers reach every waiting row after finitely many others. |
| `Rehandling.RestartsExactlyWhenUnfinished` | src/ump/delivery.py:500-562 | A begun message is started again in some continuation if and only if its handling has not finished. |
| `Channel.ReceiveKeepsInv` | src/ump/network.py:393-433 | Receiver steps keep inbox order, floors and lane exclusivity in step with the senders' queues. |
| `Channel.ClaimableFollowsFinished` | src/ump/delivery.py:500-533 | A claimable row has every earlier row of its lane finished. |
| `Channel.HandlingIsFirstInFirstOut` | src/ump/delivery.py:238-289 | In every reachable state the first handler starts of every lane are a prefix of its enqueue order. |
| `Channel.RepeatedHandlingFollowsCrash` | src/ump/delivery.py:383-385 | In the composed system too, only a crash during its handling makes a message start again. |
| `Channel.OneHandlerPerLane` | src/ump/delivery.py:500-562 | At most one message of a lane is being handled and everything before it is finished. |
| `Channel.DeliveredIsStored` | src/ump/delivery.py:275-289 | What the sender counts as delivered is in the receiver's inbox, activated. |
| `Delivery.SentIsAcceptable` | src/ump/network.py:393-433 | In every reachable state each frame ever sent would be acknowledged if it were served now. |
| `Delivery.DeliverHead` | src/ump/network.py:930-967 | With no connection open the head of any flow can be sent, acknowledged and confirmed. |
| `Delivery.EveryMessageCanBeDelivered` | src/ump/network.py:902-970 | From every reachable state every queued message can still be delivered: no lane wedges. |
| `Ordering.OtherStreamOvertakes` | src/ump/delivery.py:500-533 | A run in which a message of another stream, queued later, is started first. |
| `Ordering.OtherSessionOvertakes` | src/ump/delivery.py:500-533 | A run in which a message of another session, queued later in the same stream, is started first. |
| `Ordering.KeepsOrderExactly` | src/ump/delivery.py:500-533 | Two messages of one source are started in queue order in every run if and only if they share the stream and either the session or the earlier one is first in its session. |
| `Sender.HeadIsSendable` | src/ump/delivery.py:238-273 | The row a sender's `flush` picks is one the channel may send, whatever other sources have queued. |
| `Sender.DeliveryIsConfirmation` | src/ump/network.py:930-967 | Marking an acknowledged head delivered is a confirmation in the channel and leaves the parts of all other sources as they were. |
| `Sender.OtherAttemptsAreSilent` | src/ump/network.py:930-967 | A failed attempt, and anything done for another peer, is no move of the channel. |
| `Sender.QueueingExtends` | src/ump/delivery.py:151-236 | Queueing a message extends its own source's part of the queue and no other. |
| `Sender.AdmissionAppends` | src/ump/delivery.py:151-236 | Admission appends a peer's messages to its queue in batch order. |
| `Replay.ReplayProtector.Accept` | src/ump/network.py:98-115 | Accepts above the cached floor, makes the lane the youngest and evicts the least recently accepted lanes down to the maximum. |
| `Recency.CacheHoldsMostRecent` | src/ump/network.py:98-115 | After any history the cache holds the at most `maximum` lanes accepted most recently since the last restart, listed by their last acceptance and with the sequence accepted last; what was evicted is older than everything kept. |
| `Recency.CachedExactlyWhileRecent` | src/ump/network.py:112-115 | A lane is cached exactly while fewer than the maximum of other lanes have been accepted after it. |
| `Recency.RefusedExactlyWhileRemembered` | src/ump/network.py:98-115 | A positive sequence is refused exactly when its lane last accepted one at least as large, since the last restart, with fewer than the maximum of other lanes accepted in between. |
| `Replay.SqliteReplayProtector.Accept` | src/ump/network.py:174-216 | Accepts above the stored floor and raises it. |
| `Replay.JudgingIsDurable` | src/ump/network.py:398-404 | The receive path judges by the durable table. |
| `Replay.AcceptsExactlyNewMaxima` | src/ump/network.py:174-216 | A sequence is accepted exactly when positive and above everything presented on its lane before, restarts included. |
| `Replay.CacheIsNeverStricter` | src/ump/network.py:98-115 | On every history the cache accepts whatever the durable table accepts. |
| `Replay.FewLanesAgree` | src/ump/network.py:98-115 | With no more lanes than the maximum the cache holds exactly the durable floors. |
| `Replay.AgreementExactlyWithinCapacity` | src/ump/network.py:90-115 | The two agree on all histories over a set of lanes if and only if the set fits the cache. |
| `Authority.Store.Grant` | src/ump/authority.py:322-381 | Stores the lease with one audit event, only over an unrevoked row of the preceding revision, and touches no other lease; otherwise changes nothing and names the obstacle. |
| `Authority.Store.Revoke` | src/ump/authority.py:383-416 | Revokes an active lease at the expected revision with one audit event and touches no other lease, or changes nothing and names the obstacle, each exactly. |
| `Authority.AuditTrailIsFaithful` | src/ump/authority.py:322-416 | After any history audit revisions are consecutive, the log gives each lease's revision and status, and a revocation comes last. |
| `Authority.LeasesContinue` | src/ump/authority.py:322-416 | Identity never changes, revisions never fall, a revoked lease keeps its row. |
| `Authority.RevisionIsSpentOnce` | src/ump/authority.py:322-416 | After a successful call relying on a revision no later call relying on it succeeds. |
| `Authority.ActiveExactlyWhenCertain` | src/ump/authority.py:80-90 | A lease is effective exactly when it is active and valid at every true time the clock's uncertainty allows. |
| `Authority.StatusByPossibleTimes` | src/ump/authority.py:80-90 | A lease is not yet valid exactly if some true time the uncertainty allows is before it, and expired exactly by record or if none is and some is after it. |
| `Authority.AuthorizedExactlyWhen` | src/ump/authority.py:418-462 | Authorization is granted exactly to the holder, in scope, at the owner, while the lease is certainly in force. |
| `Authority.DenialNamesFirstObstacle` | src/ump/authority.py:418-462 | Each of the eight denials is given exactly when it is the first obstacle. |
| `Authority.RevokedNeverAuthorizes` | src/ump/authority.py:383-462 | Once revoked, no history and no clock reading authorizes the lease again. |
| `Authority.FiltersAgainstStatus` | src/ump/authority.py:142-160 | Three filters match the effective status exactly; the expired one adds exactly the rows whose margins overlap. |
| `Authority.ExpiredFilterExactForLongLeases` | src/ump/authority.py:142-160 | The expired filter is exact at every time if and only if the lease is at least twice as long as its uncertainty. |
| `Authority.UsableExactlyWhenLong` | src/ump/authority.py:80-90 | A lease can be effective at all if and only if it is longer than twice its uncertainty. |
| `Registry.Peers.OnManifestMessage` | src/ump/runtime.py:70-104 | A manifest starts a session afresh, updates the running one, or is ignored or refused. |
| `Registry.Peers.OnStateMessage` | src/ump/runtime.py:106-173 | A state needs a manifest in its session, must be in sequence, and replaces only a state that is not newer. |
| `Registry.Peers.MissingContext` | src/ump/runtime.py:184-197 | Lists in order exactly the participants that are not fresh. |
| `Registry.ViewShowsTenure` | src/ump/runtime.py:70-173 | After any stream of messages a view shows the current session, its latest manifest, its newest state (ties to the latest) and its per-stream maxima, and each message was treated by the rule on accepted messages alone. |
| `Registry.StateFollowsManifest` | src/ump/runtime.py:106-173 | A stored state is of the current session and was preceded by a manifest of it. |
| `Registry.FreshExactlyWhenNewestIsRecent` | src/ump/runtime.py:175-182 | A peer is fresh exactly when the newest state of its session's tenure is recent enough. |
| `Registry.TenureIsLongestRun` | src/ump/runtime.py:94-104 | A tenure is the longest final run of accepted messages of one session. |

## Left out

- TLS, certificates, sockets, framing and discovery: the source identity of a message is taken as authenticated.
- SQL text, write-ahead logging, schema migrations and read-only inventories: each transaction is one step on maps and sequences; row timestamps are kept only where a decision reads them.
- JSON encoding, JSON Schema, SHA-256 and `uuid4`: encodings and fingerprints are taken as injective, so a message or an assignment stands for its own digest, and schema conformance and message size are given as booleans. Freshness of identifiers is not assumed in the run store, where a collision is refused by the keys; the channel assumes it, together with sequences that increase in queue order.
- Texts are opaque and only compared; the order of peer identifiers enters the outbound query as an embedding into the reals, and the empty identifier as a parameter.
- The outputs of an outcome are taken as what JSON can carry, so that their encoding determines their value; tuples, non-string keys and NaN, whose encoding does not, are not part of this model.
- `Coordinator` and `Participant` are step machines rather than classes, because their handlers run concurrently and re-enter each other between store operations.
- The admission checks of an assignment appear in the robot's runs as a refusal that may happen at any time; their rule itself is in `Answers.AdmissionIsExact`, where authorization and schema results are inputs.
- `MemoryAssignmentJournal` is compared only on restart-free histories, as it has no restart.
- `_prepare`, `replan` and the planner: a run is created for any validated plan with any assignments for its steps; that a replan follows its predecessor's revision is not modelled.
- The coordinator's in-memory copies of acknowledgements and outcomes, its message sequence numbers and `bind_coordinator`.
- The order and limit of `read_authority_leases`, and the fields of leases, manifests and states that no decision reads.
- Connections that carry the same message at once are excluded from the channel and the handling log; what they can do to the inbox is in `Overlap.dfy`, for identifiers that determine their messages.
- `CommunicationWatchdog`, service loops and wall clocks: time is an input to each step.
- Delivery without an inbox (synchronous handling in the connection), inbox counts and failure listings.
- Credentials, command line, inspector, reporting, simulation and the integrations.
