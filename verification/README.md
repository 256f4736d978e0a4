# Control plane, event buses, slot pool and text machines: a Dafny model

This project models the parts of the system that carry its guarantees and proves
those guarantees for every input, every run or every interleaving.

* **The command engine** (`ControlPlane`, `CommandSpec`, `TickSpec`, `Executor`).
  Eleven commands, and the writes the loop runner's tick makes to tasks and to a
  cycle's phase, act on objectives, loops, cycles, nodes, tasks, attempts and an
  append-only journal. `Executor.Store` changes its tables in place, one transaction
  per command, with SQL statements as loops over rows. Every method is proved equal
  to a function of `CommandSpec` or `TickSpec`, and `CommandSpec.Run` runs a list of
  deliveries.
  About that function: exactly-once effect under redelivery (`ExactlyOnce`), which
  events a step adds and which keys name them (`StepEvents`, `KeyScope`), what a
  skip says (`SkipCauses`), attempts coupled to tasks (`Attempts`), the retry bound
  (`RetryBudget`), what moves a task and what reopens it (`TaskLifecycle`), how a
  task comes to run (`RunningTasks`), the law of a dispatch round and of the ids it
  reports (`DispatchLaw`, `DispatchReports`), tables rebuilt from the journal
  (`TableChanges`, `JournalFold`), cycle numbers (`CycleNumbers`) and the phases a
  cycle goes through (`PhaseHistory`, `PhasePaths`). `TickSpec.Ticks` runs a list
  of commands with the tick's own phase writes among them; `TickRuns` and
  `TickPaths` prove what the journal then still tells. `Scenarios` and
  `TickScenarios` hold concrete runs in which a guarantee fails, from the start in
  `FirstRun`.
* **What one step does, told from rows** (`RowLaws`, `ScopeLaw`, `GateLaw`): the
  reply in every case, each table's rows after the step and the event with its
  payload, in terms of the rows before and not of the engine's own functions.
  `TwoObjectives` is a run in which a scoped round passes over another objective.
* **The event buses** (`EventBus`, `BusRefinement`): the buffered bus as a
  refinement of the direct one, with and without database failures, and both
  journals and queries told from the columns (`BusColumns`).
* **The worktree slot pool** (`SlotPool`, `SlotPoolSteps`): as a class used by one
  caller at a time, and as steps between lock points under any interleaving.
* **Text machines**: the SSE drainer (`SseDrainer`), the porcelain parser
  (`Porcelain`), the Codex section extractor (`CodexOutput`, `CodexFallback`) and
  the output normaliser (`Normalize`), over `Lines` and `Text`. `CodexLines` and
  `NormalizeLaws` say which characters and lines they act on.
* **Decisions**: the table of cycle phases (`PhaseRuns`), HTTP retry (`Backoff`), adapter
  selection (`AdapterRegistry`, `RegistryLaws`), skill resolution (`SkillResolution`,
  `SkillLaws`) and the plan gate (`PlanGate`).

`dafny verify dfyconfig.toml` checks everything.

## Reading the model

* An id is a number from the store's counter; it stands for a time-ordered UUID.
  Rows stand in creation order, so table order is `created_at` order. Payloads hold
  the fields that something reads or that a replay needs.
* `Rejected` is the engine's rejection, and `SKIPPED` its idempotent skip. The
  caller owns the transaction, so a step is atomic.
* `cycle_index` wraps like a 32-bit integer in a release build (`Succ32`); attempt
  indices do not wrap.
* The model follows the code of `executor.rs` where the migrations would stop it:
  later CHECK constraints refuse some lifecycle values, a foreign key would refuse a
  cycle of a missing loop, and the two-column unique index of migration 0012 would
  refuse a dispatch event whose key another task's event already holds.
  `KeyScope.StepKeysUnique` gives the exact condition for the last case.
* Migration 0020 leaves `failed` out of `nodes.lifecycle`. On a migrated database the
  node update of every failure report, and of every completion other than
  succeeded, is refused and with it the command. Of the inputs named below this
  stops `Scenarios.SucceededTaskReopens` at its failure report and
  `Scenarios.CompletionEscapesBudget` at its completion. The others make no such
  update: a report that is skipped never reaches it, a timeout leaves the node alone.
  The two-column index refuses the round of `Scenarios.DispatchKeyTaken`.
* All four statements that change `cycles.phase` are in the tick: its
  `advance_cycle_phase`, its intake step, and two that override the plan gate. The
  clock, the planning pipeline's answer and a manual override are parameters of a
  turn at the gate.

## Where a stated guarantee needs a condition

The conditions are exact, and inputs on the failing side are given where one is named.

* `commands.rs` 529-531 says retry budgets are not enforced; `executor.rs` 929-950
  enforces them. The bound fails only when a completion names `queued` as its final
  status (`RetryBudget.StepLoad`, `Scenarios.CompletionEscapesBudget`).
* The budget bounds dispatches, not executions: a task inserted as running, by the
  tick or by a command, and one completed as running, runs without an attempt
  (`RunningTasks.RunningBare`, `Scenarios.RunsUnattempted`). Without completions as
  queued or running it begins to run at most once more than its budget says
  (`RunningTasks.EntriesBounded`).
* Succeeded and cancelled tasks stay so except that a failure report does not look
  at the status (`TaskLifecycle.LeavesClosed`, `Scenarios.SucceededTaskReopens`).
* Idempotency keys are scoped by kind, not by command, and a dispatched task takes a
  key of its own, so a command can be skipped that was never carried out
  (`SkipCauses.SkipMeansDone`, `Scenarios.NeverCarriedOut`,
  `Scenarios.SwallowedByDispatch`).
* A round can leave two task events under one key
  (`KeyScope.StepKeysUnique`, `Scenarios.DispatchKeyTaken`).
* A dispatch after a retry reports an event id that no event has
  (`DispatchReports.ReplyReports`, `Scenarios.UnknownIdReported`).
* A cycle takes the number its caller names, and the next-cycle command does not
  check its loop (`CycleNumbers.StepInSequence`, `Scenarios.CycleOutOfSequence`).
* Nothing in the engine asks `is_valid_phase_transition`: the tick's phase change
  takes any two phases. The tick itself goes from intake straight to plan elaboration
  (`tick.rs` 508), from there straight to decomposition (680-686) and from
  integration straight to the state update (1654). "Dispatch only after validation
  and review" holds of runs that keep to the table (`PhaseHistory.ReadyAfterTwelve`)
  and not of the tick's own (`TickPaths.TickHistory`,
  `TickScenarios.DispatchWithoutReview`).
* After five evaluations or thirty minutes the tick overrides the plan gate (591-610,
  631-650): it sets the phase and journals no transition. From then on a replay of
  the journal leaves the cycle in plan elaboration, and its history leaves out
  decomposition, exactly for the cycles overridden (`TickRuns.ReplayTellsForce`,
  `TickPaths.TickHistory`, `TickScenarios.OverrideHappens`).
* The intake step has a key of its own beside the one `advance_cycle_phase` would
  use, so that one transition can be made twice (`TickRuns.EachTransitionOnce`).
* The two ways back in that table cannot be used to any end: a transition consumes
  its key for good, so a cycle sent back never takes its next step again
  (`PhaseHistory.SentBackIsStuck`, `PhasePaths.SentBackHappens`).
* A batch on the buffered bus overtakes what is buffered
  (`BusRefinement.OvertakingBatch`, `BusRefinement.BatchOvertakes`), and a refused
  call drops what it finds in the buffer or brings
  (`BusRefinement.KeptUnlessRefused`, `BusRefinement.RefusedFlushLoses`).
* A task that acquires again while it holds a slot leaks the old one
  (`SlotPool.LeakIffAcquiresTwice`, `SlotPool.SecondAcquireLeaks`), and the two lock
  orders can deadlock (`SlotPoolSteps.DeadlockNeedsTwoSlots`).
* Codex output without a section header keeps an indented metadata line as its
  first line, and a second pass takes it out (`CodexFallback.FallbackSettles`,
  `CodexFallback.IndentedResurfaces`).
* The output budget is in characters but is compared with bytes
  (`Normalize.TruncatedButWhole`, `Normalize.WholeButTruncated`), and a cut just
  after white space is trimmed by the next pass (`Normalize.Settles`,
  `Normalize.CutAtSpace`).
* A question-budget entry that was never evaluated silences the question count at
  the plan gate (`PlanGate.SatisfiedAllows`, `PlanGate.CountSilenced`).
* The two skill resolvers differ on an override whose pack is missing
  (`SkillResolution.ResolversAgree`, `SkillResolution.ResolversDisagree`).
* The linear backoff's last attempt number wraps to no delay in a release build
  (`Backoff.DelaysGrowToCap`); the retry loop does not reach it.

## Model

| member | source | states |
|---|---|---|
| Executor.SelectRow | packages/control-plane/src/executor.rs:189-203 | a lookup by id finds the first row with that id, or none |
| Executor.UpdateRows | packages/control-plane/src/executor.rs:523-534 | exactly the rows that satisfy the WHERE clause are rewritten, and no row is affected exactly when none satisfies it |
| Executor.Store.IdempotencyCheck | packages/control-plane/src/executor.rs:40-53 | an aggregate is returned exactly when some event has this kind and key, and it is such an event's aggregate |
| Executor.Store.AppendEvent | packages/control-plane/src/executor.rs:56-80 | a fresh id is always handed back; the event goes in only if kind, aggregate and key are new together |
| Executor.Store.QueuedTasks | packages/control-plane/src/executor.rs:484-512 | the queued rows in scope, oldest first, cut at the limit |
| Executor.Store.ExecuteCreateObjective | packages/control-plane/src/executor.rs:116-172 | blank summary or outcome is refused before the key is looked at; otherwise one row and one event, at most once per key |
| Executor.Store.ExecuteCreateLoop | packages/control-plane/src/executor.rs:178-237 | a loop at index 0 under an existing objective, at most once per key |
| Executor.Store.ExecuteCreateCycle | packages/control-plane/src/executor.rs:243-314 | a cycle in intake under the index its caller names, and the loop row takes that index |
| Executor.Store.ExecuteCreateNode | packages/control-plane/src/executor.rs:320-393 | the key is made from the milestone, not taken from the command; the statement carries the milestone |
| Executor.Store.ExecuteCreateTask | packages/control-plane/src/executor.rs:399-465 | a task under an existing node, in the status its caller names, without a budget |
| Executor.Store.StartTask | packages/control-plane/src/executor.rs:517-591 | one turn of the dispatch loop: a row no longer queued is passed over, another starts its next attempt |
| Executor.Store.StartTasks | packages/control-plane/src/executor.rs:514-591 | the whole loop is the fold of its turns, and the count is the number of reported events |
| Executor.Store.ExecuteDispatch | packages/control-plane/src/executor.rs:472-620 | a round at most once per key: the loop's changes, one closing event, and all event ids in the reply |
| Executor.Store.ExecuteCompletion | packages/control-plane/src/executor.rs:626-721 | refused in a terminal status, otherwise any final status is taken for the task and its running attempts, and the node follows |
| Executor.Store.ExecuteFailure | packages/control-plane/src/executor.rs:727-806 | task, running attempts and node fail, whatever the task's status was |
| Executor.Store.ExecuteTimeout | packages/control-plane/src/executor.rs:813-887 | only a running task times out; its attempt ends as timed out and the node is left alone |
| Executor.Store.ExecuteRetry | packages/control-plane/src/executor.rs:894-990 | only a failed task with attempts left in its budget goes back to the queue with its node |
| Executor.Store.ExecuteNextCycle | packages/control-plane/src/executor.rs:997-1111 | from a cycle that is ready: the next cycle under the named loop's next index, and the carried nodes requeued |
| Executor.Store.CarryForward | packages/control-plane/src/executor.rs:1072-1082 | requeueing nodes one by one is requeueing the set of them, so repeats change nothing |
| Executor.Store.InsertAutoTask | services/loop-runner/src/tick.rs:1191-1274 | the tick's task under a policy budget, running or queued by its dependencies, at most once per key |
| Executor.Store.AdvanceCyclePhase | services/loop-runner/src/tick.rs:3955-4052 | a phase changes only from the phase expected and only once per cycle and pair of phases, and the transition and its sidecar record are journaled |
| Executor.Store.AdvanceIntakeCycle | services/loop-runner/src/tick.rs:485-537 | from intake to plan elaboration at most once per cycle, journaled under a key of its own |
| Executor.Store.CheckPlanGate | services/loop-runner/src/tick.rs:575-719 | a cycle's turn at the plan gate: overridden past five evaluations or the time limit, otherwise evaluated and, if the gate opens, advanced |
| GateLaw.TurnKeepsLaw | services/loop-runner/src/tick.rs:575-719 | a turn at the gate on rows: nothing for a cycle that does not wait; an override after five evaluations, or when late with a start on record; otherwise one evaluation, and the advance exactly if the gate opens and the transition is new |
| GateLaw.TurnOutcome | services/loop-runner/src/tick.rs:590-719 | a waiting row is in decomposition afterwards exactly when overridden, or opened with the transition not yet made; other cycles stay |
| GateLaw.IntakeLaw | services/loop-runner/src/tick.rs:485-537 | the intake step on rows: the cycle's rows in intake, once per cycle, with one event |
| Executor.Store.Execute | packages/control-plane/src/executor.rs:116-1111 | any delivery leaves exactly the tables, counter and reply of the specification |
| Executor.Store.ExecuteAll | packages/control-plane/src/executor.rs:3-15 | a run of deliveries leaves the tables of the specified run, so the run theorems hold of the store |
| RowLaws.ObjectiveLaw | packages/control-plane/src/executor.rs:116-172 | an objective on rows: refused if either text is only white space, skipped under a used key, otherwise one row and one event, and nothing else |
| RowLaws.LoopLaw | packages/control-plane/src/executor.rs:178-237 | a loop on rows: skipped, refused without its objective, otherwise one row at index 0 and one event |
| RowLaws.CycleLaw | packages/control-plane/src/executor.rs:243-314 | a cycle on rows: skipped, refused without its loop, otherwise one row in intake, the index on the rows of its loop alone, and one event |
| RowLaws.BridgeLaw | packages/control-plane/src/executor.rs:320-393 | a node on rows: skipped by the milestone's key whatever key the command names, refused without its objective, otherwise one row and one event |
| RowLaws.TaskLaw | packages/control-plane/src/executor.rs:399-465 | a task on rows: skipped, refused without its node, otherwise one row in the status named, without a budget, and one event |
| RowLaws.CompletionLaw | packages/control-plane/src/executor.rs:626-721 | a fresh completion on rows: refused in a terminal status; otherwise task and running attempts take the final status, the task's node is completed exactly for succeeded and failed otherwise, and all else stays but for one event |
| RowLaws.FailureLaw | packages/control-plane/src/executor.rs:727-806 | a fresh failure report on rows: task, running attempts and node fail, and all else stays but for one event |
| RowLaws.TimeoutLaw | packages/control-plane/src/executor.rs:813-887 | a fresh timeout on rows: only of a running task; its attempts end as timed out, and no node changes |
| RowLaws.RetryLaw | packages/control-plane/src/executor.rs:894-990 | a fresh retry on rows: refused unless failed, and once the number of its attempts has reached its budget; otherwise task and node are queued and no attempt changes |
| RowLaws.NextCycleLaw | packages/control-plane/src/executor.rs:997-1111 | a fresh next-cycle command on rows: only from a ready cycle, under the index after the loop's, and exactly the carried nodes that had failed or were completed are queued |
| RowLaws.AutoTaskLaw | services/loop-runner/src/tick.rs:1191-1274 | the tick's insert on rows: only a proposed node moves with it, to queued if blocked and to running if not |
| RowLaws.AdvanceLaw | services/loop-runner/src/tick.rs:3955-4052 | a phase change on rows: exactly the cycle's rows in the phase expected, the transition, and the sidecar record unless it is there |
| ExactlyOnce.StepJournal | packages/control-plane/src/executor.rs:40-80 | the journal only grows; an accepted command's key is in it; a refused command changes nothing |
| ExactlyOnce.RejectionChangesNothing | packages/control-plane/src/executor.rs:105-113 | no rejection of any command changes any table or the counter |
| ExactlyOnce.RedeliveryIsSkipped | packages/control-plane/src/executor.rs:40-53 | once accepted, a command is skipped after any later commands |
| ExactlyOnce.AcceptedThenSkipped | packages/control-plane/src/executor.rs:40-53 | a command accepted anywhere in a run is skipped at its end |
| ExactlyOnce.ExactlyOnceEffect | packages/control-plane/src/executor.rs:40-80 | repeats of accepted commands, put in anywhere later and any number of times, leave the whole store as if each had come once |
| KeyScope.StepKeysUnique | db/migrations/0012_bnd010_idempotency_registry.sql:15-18 | a step keeps task keys unique per kind exactly when it dispatches no task whose dispatch key another aggregate holds |
| Scenarios.DispatchKeyTaken | packages/control-plane/src/executor.rs:570-575 | a concrete run: the tick's queued task, a task created later under its dispatch key, and a round that leaves two task events under that key |
| KeyScope.KeysUnique | db/migrations/0012_bnd010_idempotency_registry.sql:15-18 | in every run, under every kind but task, sidecar records included, no two events share a key |
| KeyScope.TaskKeysUnique | packages/control-plane/src/executor.rs:570-575 | the same for tasks if no task command uses a key of the dispatch form |
| SkipCauses.KeyProvenance | packages/control-plane/src/executor.rs:40-53 | a consumed key was consumed by a command with that kind and key taking effect exactly when its first event is not that of a dispatched task |
| SkipCauses.OneEffectPerKey | packages/control-plane/src/executor.rs:40-53 | at most one delivery of a run takes effect under one kind and key |
| SkipCauses.SkipMeansDone | packages/control-plane/src/executor.rs:40-53 | a skipped command was itself carried out exactly when no different command took effect under its kind and key and no dispatch consumed the key |
| SkipCauses.SharedKeySwallows | packages/control-plane/src/executor.rs:40-53 | a command that shares kind and key with a different one already carried out is skipped, and by the end of the run has not been carried out |
| Scenarios.NeverCarriedOut | packages/control-plane/src/executor.rs:727-736 | a concrete run: a failure report under the key of its task's creation is skipped twice and never carried out |
| Scenarios.SwallowedByDispatch | packages/control-plane/src/executor.rs:570-575 | a concrete run: a failure report under its task's dispatch key is swallowed by the dispatch |
| StepEvents.StepAddsEvents | packages/control-plane/src/executor.rs:56-80 | what any step adds to the journal: at most one event of its own, at most one sidecar record, and dispatch events for a round; nothing if its key was there |
| StepEvents.EffectConsumesKey | packages/control-plane/src/executor.rs:37-53 | a command takes effect exactly when the journal changes, and exactly when it consumes its key |
| KeyScope.OneNodePerMilestone | packages/control-plane/src/executor.rs:320-331 | in every run the node rows belong to pairwise different milestones |
| Attempts.MaxIsCount | packages/control-plane/src/executor.rs:931-939 | the highest attempt index that dispatch reads is the number of attempts that retry reads |
| Attempts.StepHasEffect | packages/control-plane/src/executor.rs:522-558 | every command touches tasks and attempts in one of five ways, for any store |
| Attempts.StepKeepsCoupling | packages/control-plane/src/executor.rs:665-684 | every command keeps tasks and attempts coupled |
| Attempts.ReachableCoupled | packages/control-plane/src/executor.rs:522-558 | in every run: distinct task ids, attempts numbered 1..n per task, at most one running per task, and a running attempt's task is running |
| RetryBudget.StartRowsLoad | packages/control-plane/src/executor.rs:522-558 | a round turns queue places into attempts one for one |
| RetryBudget.StepLoad | packages/control-plane/src/executor.rs:929-950 | one step takes a task past its budget exactly when a completion with a new key names queued for a task neither terminal nor queued, its budget used up |
| RetryBudget.RetryBound | packages/control-plane/src/executor.rs:929-959 | over every run without such completions, a task with budget b has at most max(1, b) attempts, counting the one it is queued for |
| RetryBudget.EveryAttemptCounted | packages/control-plane/src/executor.rs:548-558 | the attempts of budgeted tasks, counted one by one or task by task, are the same number |
| RetryBudget.TotalDispatchesBounded | packages/control-plane/src/executor.rs:929-959 | the budgeted tasks of a run are together dispatched at most the sum of max(1, b) times; if all are budgeted that bounds every dispatch |
| Scenarios.CompletionEscapesBudget | packages/control-plane/src/executor.rs:626-721 | a concrete run past a budget of 1: an objective, a loop, a cycle, a node and its task, dispatched, completed as queued |
| RunningTasks.StepEnters | packages/control-plane/src/executor.rs:522-558 | a task that begins to run in a step gains an attempt exactly when it was not inserted or completed as running; one that goes on running keeps what it had |
| RunningTasks.RunningBare | services/loop-runner/src/tick.rs:1181-1240 | over every run, a running task has no running attempt exactly when it last began to run by an insert or a completion, and has been running since |
| RunningTasks.EntriesCounted | packages/control-plane/src/executor.rs:548-558 | the times a task begins to run are its attempts and its bare beginnings |
| RunningTasks.EntriesBounded | packages/control-plane/src/executor.rs:929-959 | over every run without completions as queued or running, a task with budget b begins to run at most b + 1 times |
| Scenarios.RunsUnattempted | services/loop-runner/src/tick.rs:1191-1240 | a concrete run: the tick's unblocked task runs without an attempt |
| TaskLifecycle.StepMoves | packages/control-plane/src/executor.rs:626-990 | task rows keep all but their status, a status moves only along the stated transitions, and a fresh delivery makes the move it may make |
| TaskLifecycle.LeavesClosed | packages/control-plane/src/executor.rs:738-760 | a succeeded or cancelled task leaves that status exactly when a fresh failure report for it arrives |
| TaskLifecycle.ClosedStaysClosed | packages/control-plane/src/executor.rs:650-658 | over any run without failure reports for it, such a task's row does not change |
| TaskLifecycle.FailureReopens | packages/control-plane/src/executor.rs:894-959 | a failure report and a retry put such a task back in the queue exactly when its budget allows another attempt |
| Scenarios.SucceededTaskReopens | packages/control-plane/src/executor.rs:738-760 | a concrete run from the empty store: created, dispatched, succeeded, reported failed, retried, and queued again |
| DispatchLaw.QueryIsComplete | packages/control-plane/src/executor.rs:484-512 | the query returns every eligible row, in creation order |
| DispatchLaw.OldestFirst | packages/control-plane/src/executor.rs:484-512 | the rows taken are the min(limit, eligible) oldest eligible ones |
| DispatchLaw.RoundHasEffect | packages/control-plane/src/executor.rs:517-591 | after the loop: exactly those rows running, one next attempt each, their waiting nodes running, all else as before |
| DispatchLaw.RoundLaw | packages/control-plane/src/executor.rs:484-619 | both together for a command: oldest first, exactly as many starts, one event id more than starts, applied exactly when something started |
| ScopeLaw.ScopedRoundLaw | packages/control-plane/src/executor.rs:484-619 | a round starts a task exactly when it is queued, its node is under the objective of the named cycle's loop, and fewer than the limit of such tasks are older; its closing event says how many it started |
| ScopeLaw.StartLaw | packages/control-plane/src/executor.rs:514-591 | one started row on rows: its next attempt, its waiting node running, and its dispatch event unless one is there |
| TwoObjectives.ScopedRoundStartsOwn | packages/control-plane/src/executor.rs:484-502 | a concrete run with two objectives: a round for the second one's cycle passes over the older task of the first |
| DispatchReports.ReplyReports | packages/control-plane/src/executor.rs:570-619 | of the event ids in a round's reply the last is the closing event's, and a started task's is that of an event exactly when the task had never been dispatched |
| Scenarios.UnknownIdReported | packages/control-plane/src/executor.rs:570-589 | a concrete run: dispatched, timed out, retried, dispatched again, and an id of no event in the reply |
| TableChanges.StepChanges | packages/control-plane/src/executor.rs:178-393 | the change a step makes to loops, cycles and node identities, and the event that records it, are told by its guards beforehand |
| JournalFold.StepKeepsLog | packages/control-plane/src/executor.rs:205-231 | every step keeps the agreement of journal and tables |
| JournalFold.JournalRebuildsTables | packages/control-plane/src/executor.rs:270-308 | in every run the journal replays to the loops with their indices, the cycles with their phases, and the identity of every node |
| CycleNumbers.OpenInSequence | packages/control-plane/src/executor.rs:1035-1070 | opening a cycle keeps the numbering exactly when its loop exists and the index is one above the loop's |
| CycleNumbers.StepInSequence | packages/control-plane/src/executor.rs:1036-1044 | a step keeps every loop's cycles numbered exactly when its guards keep it from opening a cycle or it asks for the next index |
| CycleNumbers.RunInSequence | packages/control-plane/src/executor.rs:1035-1102 | if every opening asks for the next index, each loop's cycles are 1..n in order and its row says n |
| Scenarios.CycleOutOfSequence | packages/control-plane/src/executor.rs:270-281 | a concrete run: a loop's first cycle numbered 5 |
| EventBus.DirectBus.Publish | packages/scaling/src/pg_event_bus.rs:17-34 | first writer wins; a refused call changes nothing |
| EventBus.DirectBus.PublishBatch | packages/scaling/src/pg_event_bus.rs:36-63 | the batch goes in event by event, or not at all |
| EventBus.DirectBus.QueryByAggregate | packages/scaling/src/pg_event_bus.rs:65-96 | the aggregate's events, newest first, cut at the limit |
| EventBus.DirectBus.Count | packages/scaling/src/pg_event_bus.rs:98-115 | the number of events of that kind, aggregate and event kind |
| EventBus.BufferedBus.PublishEvent | packages/scaling/src/nats_event_bus.rs:72-81 | the event waits, and a full buffer is emptied before the database is asked; an error is reported exactly when that call fails |
| EventBus.BufferedBus.PublishBatchOf | packages/scaling/src/nats_event_bus.rs:83-85 | a batch goes straight to the journal and leaves the buffer alone |
| EventBus.BufferedBus.FlushBuffer | packages/scaling/src/nats_event_bus.rs:59-67 | the buffer is emptied, and its events inserted if the database is up |
| BusColumns.DirectRunLaw | packages/scaling/src/pg_event_bus.rs:17-63 | over every run the direct journal is the events that got through, the first under each kind, aggregate and key, in order |
| BusColumns.BufferedRunLaw | packages/scaling/src/nats_event_bus.rs:56-81 | the same for the buffered journal and the events that reached it |
| BusColumns.BufferedCallLaw | packages/scaling/src/nats_event_bus.rs:56-85 | each call of the buffered bus, up or refused: what goes to the journal and what is left in the buffer |
| BusColumns.FirstWriterWins | packages/scaling/src/pg_event_bus.rs:20-34 | concrete publishes: a duplicate under a fresh id is ignored; another aggregate, kind or key goes in |
| BusColumns.HundredthFlushes | packages/scaling/src/nats_event_bus.rs:72-81 | publishes wait in the buffer up to ninety-nine; the hundredth takes them all to the journal |
| BusColumns.MatchingLaw | packages/scaling/src/pg_event_bus.rs:65-96 | the aggregate query lists exactly the rows of that kind and aggregate, each once, newest first |
| BusColumns.CountLaw | packages/scaling/src/pg_event_bus.rs:98-115 | the count is the number of journal positions that agree in kind, aggregate and event kind |
| BusRefinement.BufferedRefinesDirect | packages/scaling/src/nats_event_bus.rs:72-81 | at every step of any run of publishes and flushes, journal plus buffer is the direct bus's journal, and the buffer stays under its limit |
| BusRefinement.FlushCoincides | packages/scaling/src/nats_event_bus.rs:59-67 | after a flush the two journals are equal row for row |
| BusRefinement.SameKeysAfterFlush | packages/scaling/src/nats_event_bus.rs:83-85 | with batches in between, both journals still hold the same keys |
| BusRefinement.OvertakingBatch | packages/scaling/src/nats_event_bus.rs:83-85 | an overtaking batch leaves the direct journal exactly when the new events of one list begin the new events of the other |
| BusRefinement.BatchOvertakes | packages/scaling/src/nats_event_bus.rs:83-85 | a concrete run in which the two rows come out in the other order |
| BusRefinement.NothingElseIsLost | packages/scaling/src/nats_event_bus.rs:56-67 | under any failures every published event is kept, waiting or in a refused batch, each counted once |
| BusRefinement.KeptUnlessRefused | packages/scaling/src/nats_event_bus.rs:56-81 | all that was published is kept or waiting exactly when no refused call finds an event in the buffer or brings one |
| BusRefinement.RefusedFlushLoses | packages/scaling/src/nats_event_bus.rs:59-67 | a concrete run: a refused flush leaves its event neither in the journal nor in the buffer |
| SlotPool.WorktreePool.constructor | packages/scaling/src/pooled_worktree.rs:17-42 | the slots 0..size-1 in order, none assigned |
| SlotPool.WorktreePool.AcquireSlot | packages/scaling/src/pooled_worktree.rs:47-72 | the oldest free slot, or exhausted exactly when there is none; an older entry of the task is overwritten |
| SlotPool.WorktreePool.ReleaseSlot | packages/scaling/src/pooled_worktree.rs:74-80 | the task's slot goes to the back; without an entry nothing changes |
| SlotPool.SlotsAccounted | packages/scaling/src/pooled_worktree.rs:47-80 | over every run each slot is in exactly one place: free, held by one task, or leaked |
| SlotPool.FirstInFirstOut | packages/scaling/src/pooled_worktree.rs:47-80 | slots leave the queue in the order they entered it |
| SlotPool.LeakIffAcquiresTwice | packages/scaling/src/pooled_worktree.rs:67-70 | a slot leaks exactly when some acquire succeeds for a task that holds one |
| SlotPool.SecondAcquireLeaks | packages/scaling/src/pooled_worktree.rs:67-70 | a concrete run: a second acquire leaks slot 0 |
| SlotPool.SlotsAddUp | packages/scaling/src/pooled_worktree.rs:47-80 | free, held and leaked slots add up to the pool size |
| SlotPoolSteps.Linearizable | packages/scaling/src/pooled_worktree.rs:47-80 | every interleaving at the lock points is the one-at-a-time pool run in order of effect, and every acquire and release returns what it returns there |
| SlotPoolSteps.ConcurrentSafety | packages/scaling/src/pooled_worktree.rs:47-80 | over every interleaving no slot has two owners, and free, in-hand, held and leaked slots add up |
| SlotPoolSteps.DeadlockIsForever | packages/scaling/src/pooled_worktree.rs:48-77 | from the crossed state no slot or lock ever changes |
| SlotPoolSteps.DeadlockNeedsTwoSlots | packages/scaling/src/pooled_worktree.rs:48-77 | the crossed state is reachable exactly in pools of two slots or more |
| SseDrainer.TakeRecord | apps/cli/src/repl.rs:236-250 | one turn takes the first complete data line, or none |
| SseDrainer.DrainBuffer | apps/cli/src/repl.rs:236-262 | the loop ends, sends the complete records in order and keeps the rest |
| SseDrainer.Listen | apps/cli/src/repl.rs:224-267 | over a whole connection, what is sent and kept is that of the stream drained at once |
| SseDrainer.DrainInTwo | apps/cli/src/repl.rs:236-262 | draining a prefix first and the rest later is draining the whole |
| SseDrainer.ChunkingInvariance | apps/cli/src/repl.rs:226-262 | however a stream is cut into chunks, records and remainder are the same |
| SseDrainer.RenderedDrains | apps/cli/src/repl.rs:235-250 | every data line of a rendered stream comes out once, in order, trimmed |
| SseDrainer.DataLine | apps/cli/src/repl.rs:236-250 | a literal data line is one record, trimmed, and draining goes on after it |
| Porcelain.ListWorktrees | packages/git-control/src/worktree.rs:138-181 | the loop computes the fold of its line rule, with the last block flushed |
| Porcelain.ReadBlock | packages/git-control/src/worktree.rs:143-171 | a printed block is read as its worktree, whatever other lines it holds |
| Porcelain.RoundTrip | packages/git-control/src/worktree.rs:138-181 | any list of worktrees printed and parsed comes back in order, with or without the final blank line |
| Porcelain.LineLaw | packages/git-control/src/worktree.rs:143-171 | each literal kind of line sets its field, a blank one ends the block if it has a path, and others are passed over |
| Porcelain.LiteralBlock | packages/git-control/src/worktree.rs:138-181 | a literal block comes back as its path, branch and commit |
| CodexOutput.CutFrom | packages/agent-adapters/src/normalize.rs:194-232 | walking back and skipping forward cuts exactly the lines up to metadata without rules at either end |
| CodexOutput.ExtractContent | packages/agent-adapters/src/normalize.rs:182-240 | the section under the first header, or the text without metadata lines |
| CodexOutput.SectionByFrame | packages/agent-adapters/src/normalize.rs:211-232 | for any line classes that exclude each other: the cut returns a framed list exactly when no element is metadata and neither end is a rule |
| CodexOutput.SectionOfFrame | packages/agent-adapters/src/normalize.rs:194-232 | a framed content is cut out unchanged exactly when no line looks like metadata and neither end is a rule |
| CodexOutput.FramingRoundTrip | packages/agent-adapters/src/normalize.rs:182-235 | framing such a content with a header, rules and metadata and extracting it returns it |
| CodexLines.LiteralRoundTrip | packages/agent-adapters/src/normalize.rs:182-235 | the round trip on the literal header, a rule and any of the five metadata lines |
| CodexLines.KeyLineGone | packages/agent-adapters/src/normalize.rs:22-27 | without a header, a line of any of the five keys is taken out |
| CodexFallback.MatchEndsLine | packages/agent-adapters/src/normalize.rs:22-27 | a match of the metadata pattern ends at the end of a line |
| CodexFallback.BlankedUnmarked | packages/agent-adapters/src/normalize.rs:237-238 | after all matches are taken out no line starts with one |
| CodexFallback.UnmarkedKept | packages/agent-adapters/src/normalize.rs:237-238 | text is left as it is exactly when no line starts with a match |
| CodexFallback.FallbackSettles | packages/agent-adapters/src/normalize.rs:237-239 | a second fallback pass changes the text exactly when the first text left after removal is an indented line that would match, other than a bare key |
| CodexFallback.IndentedResurfaces | packages/agent-adapters/src/normalize.rs:237-239 | a concrete text: an indented metadata line kept by the first pass and lost by the second |
| Normalize.StripStages | packages/agent-adapters/src/normalize.rs:100-163 | comparing byte lengths decides rightly whether stripping changed the text |
| Normalize.NormalizeOutput | packages/agent-adapters/src/normalize.rs:100-163 | text, lengths and classification for any policy, the classification in terms of what changed |
| Normalize.WithinBudget | packages/agent-adapters/src/normalize.rs:100-163 | under the default flags the content fits the budget in characters and is free of control characters and carriage returns |
| Normalize.Settles | packages/agent-adapters/src/normalize.rs:100-163 | a second pass changes the text exactly when the budget falls just after a white space inside the cleaned text, and a third never does |
| Normalize.CutAtSpace | packages/agent-adapters/src/normalize.rs:100-163 | a concrete text that the second pass changes |
| Normalize.SecondPassIdle | packages/agent-adapters/src/normalize.rs:100-163 | unless the first pass truncated, a second changes nothing and reports nothing |
| Normalize.CleanMeansUntouched | packages/agent-adapters/src/normalize.rs:100-163 | Clean exactly when there was nothing to strip or trim and the text fits; the content is then the input with line feeds |
| Normalize.TruncatedButWhole | packages/agent-adapters/src/normalize.rs:100-163 | reported as truncated with no character cut exactly when it fits in characters but not in bytes |
| Normalize.WholeButTruncated | packages/agent-adapters/src/normalize.rs:140-150 | a concrete text of one character reported as truncated and whole |
| NormalizeLaws.ScanLaw | packages/agent-adapters/src/normalize.rs:14-17 | where the scan stands, a complete escape sequence is taken out whole and anything else, an ESC too, is kept |
| NormalizeLaws.ColoursGo | packages/agent-adapters/src/normalize.rs:105-113 | text pieces with escape sequences between them come out as the pieces joined |
| NormalizeLaws.ColouredOutput | packages/agent-adapters/src/normalize.rs:100-163 | the same through the whole normaliser, reported as stripped |
| NormalizeLaws.RedLetter | packages/agent-adapters/src/normalize.rs:14-17 | a concrete coloured letter whose content is the letter |
| NormalizeLaws.ControlsLaw | packages/agent-adapters/src/normalize.rs:115-125 | character by character, exactly the control characters other than tab, line feed and carriage return go |
| NormalizeLaws.EndingsLaw | packages/agent-adapters/src/normalize.rs:127-130 | a carriage return, with its line feed or alone, becomes one line feed, and all else stays |
| NormalizeLaws.KindLaw | packages/agent-adapters/src/normalize.rs:100-163 | under the default flags each class holds exactly under its condition on the input, in order of precedence |
| PhaseRuns.TransitionShape | packages/control-plane/src/commands.rs:287-312 | the table is exactly one place forward or one of two ways back |
| PhaseRuns.StepsTaken | packages/control-plane/src/commands.rs:287-312 | in any legal run each send-back costs three steps and each certification failure four |
| PhaseRuns.NeverBackToPlanning | packages/control-plane/src/commands.rs:287-307 | after decomposition no run is ever in a planning phase again |
| PhaseRuns.CompleteRun | packages/control-plane/src/commands.rs:287-312 | of the table alone: a complete run has 12 + 3r + 4c steps, visits every phase, and enters dispatch once, after validation and review |
| PhaseHistory.HistoryLaw | services/loop-runner/src/tick.rs:3955-4018 | in every run of commands, for any phases asked for, a cycle's transitions in the journal chain from intake to its row's phase, each has consumed its key, and none occurs twice |
| PhaseHistory.HistoryIsLegal | packages/control-plane/src/commands.rs:287-312 | in every run that keeps to the table, every cycle's history is a legal run |
| PhaseHistory.WayBackIsLast | services/loop-runner/src/tick.rs:3968-3982 | a legal history without a repeated transition ends at its first way back |
| PhaseHistory.ReadyAfterTwelve | packages/control-plane/src/commands.rs:287-312 | in every run that keeps to the table, a cycle ready for the next one took exactly twelve steps, one through each phase in order, and no way back |
| PhaseHistory.SentBackIsStuck | services/loop-runner/src/tick.rs:3968-3982 | once sent back or failed in certification, a cycle's history never grows again under commands that keep to the table |
| TickRuns.TickChanges | services/loop-runner/src/tick.rs:485-537 | every step of a tick run but the override is a change told by its guards, with the event that records it |
| TickRuns.TicksRebuild | services/loop-runner/src/tick.rs:591-607 | in every tick run, for any commands, the journal replays to the loops, the node identities and the cycles, but for the phase of overridden cycles |
| TickRuns.ReplayTellsForce | services/loop-runner/src/tick.rs:591-610 | in every tick run in which no command leads back to planning, the journal replays a cycle's row exactly when no override took effect on it |
| TickRuns.EachTransitionOnce | services/loop-runner/src/tick.rs:3968-3982 | in every tick run, for any commands, a cycle makes each transition at most once, but for the step from intake to plan elaboration, which stands under two keys |
| TickPaths.TickHistory | services/loop-runner/src/tick.rs:558-719 | in every run on the tick's own transitions, a cycle's history is the tick's path up to its phase exactly when it was not overridden, and that path without decomposition exactly when it was |
| TickPaths.UnforcedAtLast | services/loop-runner/src/tick.rs:591-610 | in every tick run, for any commands, a cycle that was never overridden is in the phase its history ends with |
| TickScenarios.DispatchWithoutReview | services/loop-runner/src/tick.rs:680-686 | a concrete run of the tick: intake, an evaluation, decomposition, and dispatch with neither validation nor review |
| TickScenarios.OverrideHappens | services/loop-runner/src/tick.rs:631-650 | a concrete run of the tick: intake, an override by the clock, and dispatch; the replay leaves the row in plan elaboration |
| PhasePaths.EveryPathHappens | services/loop-runner/src/tick.rs:3955-4018 | the converse: every path from intake that repeats no transition is the history of a cycle in some run |
| PhasePaths.SentBackHappens | packages/control-plane/src/commands.rs:294-296 | a concrete run of commands that keep to the table, to a cycle sent back from review |
| Backoff.DelaysGrowToCap | packages/integration/src/http_gateway.rs:298-308 | before jitter no 32-bit attempt waits longer than the cap, and a later one never less, but for the linear strategy's last attempt number, which wraps to no delay |
| Backoff.ExponentialLaw | packages/integration/src/http_gateway.rs:303-306 | the base first, twice as long each time until the cap, and the cap from then on |
| Backoff.WaitsDouble | packages/integration/src/http_gateway.rs:303-347 | n exponential waits short of the cap take the base times 2^n - 1 |
| Backoff.JitterBounds | packages/integration/src/http_gateway.rs:309-322 | jitter stays within a quarter of the delay, rounded down |
| Backoff.TotalDelayBound | packages/integration/src/http_gateway.rs:298-347 | n waits take at most 1.25 times n times the cap |
| Backoff.WithRetry | packages/integration/src/http_gateway.rs:324-347 | at most max(1, attempts) calls, the first success or the last error, and the sleep between calls bounded |
| AdapterRegistry.Registry.Register | packages/agent-adapters/src/registry.rs:69-74 | adapter and health record are added at the back, the record as unknown |
| AdapterRegistry.Registry.UpdateHealth | packages/agent-adapters/src/capability.rs:92-96 | lookups of that name see the new health if it had a record, and no other lookup changes |
| AdapterRegistry.Registry.Select | packages/agent-adapters/src/registry.rs:181-188 | the answer is the head of the fallback chain |
| AdapterRegistry.Registry.SelectWithFallback | packages/agent-adapters/src/registry.rs:195-227 | none only from an empty registry, an unhealthy one only if all are, the usable preferred one, else the first usable |
| AdapterRegistry.Registry.FallbackChain | packages/agent-adapters/src/registry.rs:256-274 | the preferred adapter, then the first of each other name in registration order |
| AdapterRegistry.ChainCoversOnce | packages/agent-adapters/src/registry.rs:256-274 | the chain holds each registered name exactly once |
| RegistryLaws.UsableLaw | packages/agent-adapters/src/registry.rs:195-227 | an adapter is out of use exactly while its first record says unhealthy |
| RegistryLaws.ChainInOrder | packages/agent-adapters/src/registry.rs:256-274 | after the preferred adapter the chain lists the first of each other name in the order of registration |
| SkillResolution.ResolvesToKnownPack | packages/skill-registry/src/lib.rs:372-485 | the result is an available pack, below the overrides one not deprecated, and an escalation exactly when no level applies |
| SkillLaws.OverrideLevels | packages/skill-registry/src/lib.rs:385-416 | levels one and two are reached exactly when the first override for the task, or else for the node, names a listed pack, and give that pack |
| SkillLaws.PhaseLaw | packages/skill-registry/src/lib.rs:432-446 | the packs a phase allows are those of the first restriction listed for it |
| SkillLaws.ShortLaw | packages/skill-registry/src/lib.rs:276-354 | the short resolver's five steps, each taking the first entry that serves |
| SkillResolution.FirstHit | packages/skill-registry/src/lib.rs:417-456 | each of levels three to five is reached exactly when it has a usable pack and none above has, and takes the first one listed |
| SkillResolution.DefaultsLast | packages/skill-registry/src/lib.rs:457-477 | levels six and seven are reached exactly when no level above has a usable pack and the default names one that is not deprecated, the project's before the global one |
| SkillResolution.DeprecatedIsInvisible | packages/skill-registry/src/lib.rs:417-477 | when no override fires, putting in, taking out or moving a deprecated pack never changes the result |
| SkillResolution.ResolversAgree | packages/skill-registry/src/lib.rs:276-354 | on a request both can express, both give the same pack at the same level exactly when the full one finds a pack and no stale override names the task; the level strings agree for a task kind only |
| SkillResolution.ResolversDisagree | packages/skill-registry/src/lib.rs:291-299 | a concrete request on which the short resolver finds a pack and the full one escalates |
| PlanGate.ValidatePlan | packages/planning-engine/src/validation.rs:167-212 | the findings are those of the entries in order, with the question count added if it is not reported yet |
| PlanGate.FindingsCome | packages/planning-engine/src/validation.rs:167-191 | a finding is reported exactly when an entry for it failed or was not evaluated |
| PlanGate.SatisfiedAllows | packages/planning-engine/src/validation.rs:313-335 | a satisfied gate opens exactly when nothing failed and the questions are within budget or their entry is unevaluated |
| PlanGate.CountSilenced | packages/planning-engine/src/validation.rs:191-209 | a concrete gate that opens with one question too many |
| PlanGate.CompleteIsAllPass | packages/planning-engine/src/validation.rs:65-108 | completeness is 1 exactly when all ten conditions pass |
| PlanGate.GateIsCompleteness | packages/planning-engine/src/validation.rs:313-335 | on a fully evaluated gate, opening is completeness 1 with questions within budget |
| PlanGate.DecisionLaw | packages/planning-engine/src/validation.rs:313-335 | an overridden gate opens, an open one does not, a satisfied one opens exactly when no error is left, and the blocking findings are exactly the errors |
| PlanGate.QuestionsReported | packages/planning-engine/src/validation.rs:191-209 | the question count is reported last, exactly when over budget with no entry for it reported |
| PlanGate.OneEighth | packages/planning-engine/src/validation.rs:65-108 | one condition passed, with its partner if it has one, scores an eighth |

## Left out

- Races between transactions: deliveries are serial, so the optimistic re-check in
  the dispatch loop never fails and two transactions never pass the same key check.
- SQL failures, foreign keys and CHECK constraints; rows written in one transaction
  share a `created_at` in the database, and their order there is not fixed.
- Journal retention in the tick's clean-up, which would forget old keys.
- The tick beyond its task insert and its writes of a cycle's phase: its own inserts
  of loops and cycles, what its phases do before they advance, the planning pipeline,
  and how it computes unmet dependencies (a parameter here). A turn at the plan gate
  is one step here; in the code its statements are not one transaction.
- Worker ids, messages, artifact references, timestamps and `updated_at`.
- Two publishers on the buffered bus at once: a batch taken by one may be inserted
  after a later one of the other. Both buses are driven by one caller here.
- The future of an acquire or release dropped at an await, the git commands that
  clean a slot, `is_dirty` and `get_diff`.
- Bytes of a character split between two SSE chunks, which the listener replaces;
  chunks here end at character boundaries. Reconnecting and the tail switch.
- EventBus.DirectBus.QueryByAggregate: a negative limit is not modelled, since the
  database refuses it.
- Normalize.NormalizeOutput: invalid UTF-8 is replaced before a string exists, so
  that flag and its classification are left out.
- Backoff.JitterBounds: jitter is over the reals, so floating-point rounding of one
  millisecond is not modelled.
- AdapterRegistry.Registry.SelectWithFallback: `mark_unhealthy` only logs, although
  its comment says later calls skip the adapter; health changes through
  `update_health` alone.
- Reason strings of skill resolution and plan findings.
- Lane tables, worker states, routing, policy enforcement and gate levels: small
  finite tables settled by reading.
- HTTP, subprocesses, command line, web and desktop front ends, and the JSON
  encoding of payloads and events.
