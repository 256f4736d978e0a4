/** Concrete runs of the engine in which a guarantee fails whose condition the
    other modules give, each from the start in `FirstRun`. */
module Scenarios {
  import opened Text
  import opened ControlPlane
  import opened CommandSpec
  import opened Attempts
  import opened ExactlyOnce
  import opened TableChanges
  import opened StepEvents
  import opened KeyScope
  import opened SkipCauses
  import opened RetryBudget
  import opened RunningTasks
  import opened TaskLifecycle
  import opened DispatchReports
  import opened CycleNumbers
  import opened FirstRun

  // A key shared by two commands

  const MISKEYED := IngestFailure(AutoTaskKey(4, 6), 8)

  /** Task 8 created, and a failure report for it under the creation's key. */
  const MISKEYED_RUN := Begun(1) + [MISKEYED]

  lemma CreationIsConsumed(db: Db, budget: int)
    requires Created(db, budget)
    ensures Consumed(db.journal, TaskKind, AutoTaskKey(4, 6))
  {
    assert db.journal[4].kind == TaskKind;
  }

  lemma CreationTookEffect()
    ensures TakesEffect(MISKEYED_RUN, 4) && MISKEYED_RUN[4] == Task(1)
  {
    NodePrepared();
    TaskCreatedFirst(1);
    RunMore(SET_UP, Task(1));
    CreationIsConsumed(Run(EMPTY, Begun(1)), 1);
    assert MISKEYED_RUN[..4] == SET_UP;
    CreationIsNew(Run(EMPTY, SET_UP));
    EffectConsumesKey(Run(EMPTY, SET_UP), Task(1));
  }

  lemma CreationIsNew(db: Db)
    requires Prepared(db, [ObjectiveKind, LoopKind, CycleKind, NodeKind])
    ensures !Consumed(db.journal, TaskKind, AutoTaskKey(4, 6))
  {
  }

  /** Delivered twice, the report is skipped both times and never carried out. */
  lemma NeverCarriedOut()
    ensures Step(Run(EMPTY, MISKEYED_RUN), MISKEYED) == Reply(Run(EMPTY, MISKEYED_RUN), SKIPPED)
    ensures !TookEffect(MISKEYED_RUN, MISKEYED)
  {
    CreationTookEffect();
    SharedKeySwallows(MISKEYED_RUN, 4, MISKEYED);
    assert RivalTookEffect(MISKEYED_RUN, MISKEYED);
    NoRivalOfDone(MISKEYED_RUN, MISKEYED);
  }

  lemma DispatchIsFirst(journal: seq<Event>)
    requires |journal| == 7 && Led(journal) && IsFirstDispatch(journal[5]) && journal[6].kind == DispatchKind
    ensures Consumed(journal, TaskKind, DispatchKey(8))
    ensures FirstUnder(journal, TaskKind, DispatchKey(8)) == Some(journal[5])
  {
    TaskKeys();
  }

  /** A report under the dispatch key of its task is swallowed by the dispatch. */
  lemma SwallowedByDispatch()
    ensures var run, c := Begun(1) + [START], IngestFailure(DispatchKey(8), 8);
            Step(Run(EMPTY, run), c) == Reply(Run(EMPTY, run), SKIPPED) && !TookEffect(run, c)
  {
    TaskDispatchedFirst(1);
    DispatchIsFirst(Run(EMPTY, Begun(1) + [START]).journal);
    SkipMeansDone(Begun(1) + [START], IngestFailure(DispatchKey(8), 8));
  }

  // A dispatch key that another task owns

  const SQUATTER := CreateTask(DispatchKey(8), 6, "implementer", "pack", TaskStatus.Queued)

  /** A second task, created under the dispatch key of the first. */
  ghost predicate Squatted(db: Db) {
    && |db.tasks| == 2 && db.tasks[0].id == 8 && db.tasks[1].id == 10
    && db.tasks[0].status == TaskStatus.Queued && db.tasks[1].status == TaskStatus.Queued
    && |db.journal| == 6 && Led(db.journal)
    && db.journal[5].kind == TaskKind && db.journal[5].aggregate == 10 && db.journal[5].key == DispatchKey(8)
  }

  lemma SquatterStep(db: Db)
    requires Created(db, 1)
    ensures Squatted(Step(db, SQUATTER).db)
  {
    TaskKeys();
    assert NodeId(db.nodes[0]) == 6;
  }

  lemma BothTaken(db: Db, a: TaskRow, b: TaskRow)
    requires a.status == TaskStatus.Queued && b.status == TaskStatus.Queued
    ensures Limit(QueuedRows(db, [a, b], None), 2) == [a, b]
  {
    assert [a, b][..1] == [a] && [a][..0] == [];
    assert QueuedRows(db, [a], None) == [a];
  }

  lemma TwoQueued(db: Db, round: Command)
    requires Squatted(db) && round == DispatchRound("d", None, 2)
    ensures db.tasks[0] in RowsToStart(db, round)
  {
    BothTaken(db, db.tasks[0], db.tasks[1]);
    assert db.tasks == [db.tasks[0], db.tasks[1]];
    assert !Consumed(db.journal, DispatchKind, "d");
  }

  lemma RoundTakesKey(db: Db, round: Command)
    requires Coupled(db) && Squatted(db) && round == DispatchRound("d", None, 2)
    ensures UniqueUnder(db.journal, TaskKind) && !UniqueUnder(Step(db, round).db.journal, TaskKind)
  {
    TaskKeys();
    TwoQueued(db, round);
    assert KeyTaken(db.journal, 8);
    StepKeysUnique(db, round);
  }

  /** Two queued tasks, the later created under the dispatch key of the first:
      their round leaves two task events with one key, which the two-column
      unique index would refuse. */
  lemma DispatchKeyTaken()
    ensures var db := Run(EMPTY, Begun(1) + [SQUATTER]);
            && UniqueUnder(db.journal, TaskKind)
            && !UniqueUnder(Step(db, DispatchRound("d", None, 2)).db.journal, TaskKind)
  {
    TaskCreatedFirst(1);
    RunMore(Begun(1), SQUATTER);
    SquatterStep(Run(EMPTY, Begun(1)));
    ReachableCoupled(Begun(1) + [SQUATTER]);
    RoundTakesKey(Run(EMPTY, Begun(1) + [SQUATTER]), DispatchRound("d", None, 2));
  }

  // A second dispatch

  const EXPIRED := IngestTimeout("t", 8)
  const RETRIED := ScheduleRetry("r", 8)
  const AGAIN := DispatchRound("e", None, 1)

  /** Back in the queue after a first dispatch. */
  ghost predicate Requeued(db: Db, budget: int) {
    && db.tasks == [TaskIn(TaskStatus.Queued, budget)]
    && DispatchedBefore(db.journal, 8) && !Consumed(db.journal, DispatchKind, "e")
  }

  /** Failed by a timeout of its first attempt. */
  ghost predicate ExpiredOnce(db: Db, budget: int) {
    && db.tasks == [TaskIn(TaskStatus.Failed, budget)]
    && |db.attempts| == 1 && db.attempts[0].task == 8 && !Consumed(db.journal, TaskKind, "r")
    && DispatchedBefore(db.journal, 8) && !Consumed(db.journal, DispatchKind, "e")
  }

  lemma ReportIsNew(journal: seq<Event>, key: string)
    requires |journal| == 7 && Led(journal) && IsFirstDispatch(journal[5]) && journal[6].kind == DispatchKind
    requires |key| == 1
    ensures !Consumed(journal, TaskKind, key)
  {
    TaskKeys();
  }

  lemma ExpiredStep(db: Db)
    requires Dispatched(db, 3)
    ensures ExpiredOnce(Step(db, EXPIRED).db, 3)
  {
    ReportIsNew(db.journal, "t");
    ReportIsNew(db.journal, "r");
    var after := Step(db, EXPIRED).db.journal;
    assert after[5] == db.journal[5];
  }

  lemma RetriedStep(db: Db)
    requires ExpiredOnce(db, 3)
    ensures Requeued(Step(db, RETRIED).db, 3)
  {
    assert db.attempts[..0] == [] && AttemptCount(db.attempts, 8) == 1;
    var i :| 0 <= i < |db.journal| && db.journal[i].kind == TaskKind && db.journal[i].aggregate == 8
             && db.journal[i].key == DispatchKey(8);
    assert Step(db, RETRIED).db.journal[i] == db.journal[i];
  }

  lemma SecondReport(db: Db)
    requires Coupled(db) && IdsBelow(db) && Requeued(db, 3)
    ensures var reply := Step(db, AGAIN);
            && reply.outcome.Accepted? && reply.outcome.applied && |reply.outcome.eventIds| == 2
            && !HasId(reply.db.journal, reply.outcome.eventIds[0])
  {
    OneQueued(db, TaskIn(TaskStatus.Queued, 3));
    ReplyReports(db, AGAIN);
  }

  /** Dispatched, timed out, retried and dispatched again: the reply's first event
      id is that of no event. */
  lemma UnknownIdReported()
    ensures var run := Begun(3) + [START] + [EXPIRED] + [RETRIED];
            var reply := Step(Run(EMPTY, run), AGAIN);
            && reply.outcome.Accepted? && reply.outcome.applied && |reply.outcome.eventIds| == 2
            && !HasId(reply.db.journal, reply.outcome.eventIds[0])
  {
    var run := Begun(3) + [START];
    TaskDispatchedFirst(3);
    RunMore(run, EXPIRED);
    ExpiredStep(Run(EMPTY, run));
    RunMore(run + [EXPIRED], RETRIED);
    RetriedStep(Run(EMPTY, run + [EXPIRED]));
    ReachableCoupled(run + [EXPIRED] + [RETRIED]);
    ReachableIds(run + [EXPIRED] + [RETRIED]);
    SecondReport(Run(EMPTY, run + [EXPIRED] + [RETRIED]));
  }

  // A task that runs without an attempt

  const UNBLOCKED := AutoTask(AutoTaskKey(4, 6), 6, "implementer", "pack", false, 3)

  lemma UnblockedStep(db: Db)
    requires Prepared(db, [ObjectiveKind, LoopKind, CycleKind, NodeKind])
    ensures Step(db, UNBLOCKED).db.tasks == [TaskIn(TaskStatus.Running, 3)] && Step(db, UNBLOCKED).db.attempts == []
  {
  }

  /** The tick inserts a task that waits for nothing as running: it has no attempt. */
  lemma RunsUnattempted()
    ensures RunsWithoutAttempt(Run(EMPTY, SET_UP + [UNBLOCKED]), 8)
  {
    NodePrepared();
    RunMore(SET_UP, UNBLOCKED);
    UnblockedStep(Run(EMPTY, SET_UP));
    assert Run(EMPTY, SET_UP + [UNBLOCKED]).tasks[0].id == 8;
  }

  // A completion that says `queued`

  const SEND_BACK := CompleteTask("b", 8, TaskStatus.Queued)

  lemma SendBackStep(db: Db)
    requires Dispatched(db, 1)
    ensures !WithinBudgets(Step(db, SEND_BACK).db)
  {
    ReportIsNew(db.journal, "b");
    var next := Step(db, SEND_BACK).db;
    assert next.attempts[..0] == [] && AttemptCount(next.attempts, 8) == 1;
    assert Load(next.attempts, next.tasks[0]) == 2;
  }

  /** With a budget of 1: dispatched, and completed as queued. */
  lemma CompletionEscapesBudget()
    ensures !WithinBudgets(Run(EMPTY, Begun(1) + [START] + [SEND_BACK]))
  {
    TaskDispatchedFirst(1);
    RunMore(Begun(1) + [START], SEND_BACK);
    SendBackStep(Run(EMPTY, Begun(1) + [START]));
  }

  // A closed task comes back

  const DONE := CompleteTask("s", 8, TaskStatus.Succeeded)

  /** Succeeded after one attempt, with no other report yet. */
  ghost predicate Succeeds(db: Db, budget: int) {
    && db.tasks == [TaskIn(TaskStatus.Succeeded, budget)] && |db.attempts| == 1 && db.attempts[0].task == 8
    && !Consumed(db.journal, TaskKind, "f") && !Consumed(db.journal, TaskKind, "r")
  }

  lemma DoneStep(db: Db, budget: int)
    requires Dispatched(db, budget)
    ensures Succeeds(Step(db, DONE).db, budget)
  {
    ReportIsNew(db.journal, "s");
    ReportIsNew(db.journal, "f");
    ReportIsNew(db.journal, "r");
  }

  lemma SucceededRowReopens(db: Db)
    requires Coupled(db) && Succeeds(db, 3)
    ensures var after := Step(Step(db, IngestFailure("f", 8)).db, ScheduleRetry("r", 8)).db.tasks;
            |after| == 1 && after[0].status == TaskStatus.Queued
  {
    assert db.attempts[..0] == [] && AttemptCount(db.attempts, 8) == 1;
    FailureReopens(db, 0, "f", "r");
  }

  /** Dispatched, succeeded, reported as failed, retried: queued again. */
  lemma SucceededTaskReopens()
    ensures var db := Run(EMPTY, Begun(3) + [START] + [DONE]);
            && db.tasks == [TaskIn(TaskStatus.Succeeded, 3)]
            && var after := Step(Step(db, IngestFailure("f", 8)).db, ScheduleRetry("r", 8)).db.tasks;
               |after| == 1 && after[0].status == TaskStatus.Queued
  {
    TaskDispatchedFirst(3);
    RunMore(Begun(3) + [START], DONE);
    DoneStep(Run(EMPTY, Begun(3) + [START]), 3);
    ReachableCoupled(Begun(3) + [START] + [DONE]);
    SucceededRowReopens(Run(EMPTY, Begun(3) + [START] + [DONE]));
  }

  // Cycles

  lemma SetUpInSequence()
    ensures InSequence(Run(EMPTY, [OBJECTIVE, LOOP])) && IdsBelow(Run(EMPTY, [OBJECTIVE, LOOP]))
  {
    SetUp();
    ReachableIds([OBJECTIVE, LOOP]);
  }

  /** A caller may number a loop's first cycle 5. */
  lemma CycleOutOfSequence()
    ensures InSequence(Run(EMPTY, [OBJECTIVE, LOOP]))
    ensures !InSequence(Run(EMPTY, [OBJECTIVE, LOOP, CreateCycle("c", 2, 5, "policy")]))
  {
    SetUp();
    SetUpInSequence();
    OpensCycle(Run(EMPTY, [OBJECTIVE, LOOP]), 5);
    RunMore([OBJECTIVE, LOOP], CreateCycle("c", 2, 5, "policy"));
    assert [OBJECTIVE, LOOP] + [CreateCycle("c", 2, 5, "policy")]
        == [OBJECTIVE, LOOP, CreateCycle("c", 2, 5, "policy")];
    StepInSequence(Run(EMPTY, [OBJECTIVE, LOOP]), CreateCycle("c", 2, 5, "policy"));
  }
}
