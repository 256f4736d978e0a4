/** Which commands move a task, and which final states are final. */
module TaskLifecycle {
  import opened Text
  import opened ControlPlane
  import opened CommandSpec
  import opened Attempts
  import opened RetryBudget

  /** The ways a task row may change its status. */
  predicate MayMove(db: Db, c: Command, task: TaskRow, to: TaskStatus) {
    match c
    case DispatchRound(_, _, _) => task.status == TaskStatus.Queued && to == TaskStatus.Running
    case CompleteTask(_, id, final) => id == task.id && !Terminal(task.status) && to == final
    case IngestFailure(_, id) => id == task.id && to == TaskStatus.Failed
    case IngestTimeout(_, id) => id == task.id && task.status == TaskStatus.Running && to == TaskStatus.Failed
    case ScheduleRetry(_, id) =>
      && id == task.id && task.status == TaskStatus.Failed && to == TaskStatus.Queued
      && (task.budget.Some? ==> AttemptCount(db.attempts, id) < task.budget.value)
    case _ => false
  }

  predicate StartedOrSame(before: TaskRow, after: TaskRow) {
    after == before || (before.status == TaskStatus.Queued && after == before.(status := TaskStatus.Running))
  }

  lemma StartRowMoves(db: Db, row: TaskRow, k: nat)
    requires k < |db.tasks|
    ensures var tasks := StartRow(db, row).db.tasks;
            |tasks| == |db.tasks| && StartedOrSame(db.tasks[k], tasks[k])
  {
  }

  lemma {:induction false} StartRowsMove(db: Db, rows: seq<TaskRow>, k: nat)
    requires k < |db.tasks|
    ensures var tasks := StartRows(db, rows).db.tasks;
            |tasks| == |db.tasks| && StartedOrSame(db.tasks[k], tasks[k])
  {
    if rows == [] {
    } else {
      var rest := rows[..|rows| - 1];
      StartRowsMove(db, rest, k);
      StartRowMoves(StartRows(db, rest).db, rows[|rows| - 1], k);
    }
  }

  /** Every step keeps every row but for its status, and moves a status only
      along the transitions above; outside dispatch rounds, a fresh delivery
      makes the move it may make. */
  lemma StepMoves(db: Db, c: Command, k: nat)
    requires Coupled(db) && k < |db.tasks|
    ensures var next := Step(db, c).db.tasks;
            && |next| >= |db.tasks|
            && next[k] == db.tasks[k].(status := next[k].status)
            && (next[k].status != db.tasks[k].status ==> MayMove(db, c, db.tasks[k], next[k].status))
            && (!c.DispatchRound? && !Consumed(db.journal, KindOf(c), KeyOf(c)) ==>
                forall to | MayMove(db, c, db.tasks[k], to) :: next[k].status == to)
  {
    StepHasEffect(db, c);
    SelectUnique(db.tasks, k);
    match TaskEffectOf(db, c)
    case Started(rows) => StartRowsMove(db, rows, k);
    case _ =>
  }

  /** Done for good, as far as completions, timeouts, retries and rounds go. */
  predicate Closed(s: TaskStatus) {
    s == TaskStatus.Succeeded || s == Cancelled
  }

  /** A closed task leaves its state exactly when a failure report for it is
      taken in: that command does not look at the status. */
  lemma LeavesClosed(db: Db, c: Command, k: nat)
    requires Coupled(db) && k < |db.tasks| && Closed(db.tasks[k].status)
    ensures |Step(db, c).db.tasks| >= |db.tasks|
    ensures Step(db, c).db.tasks[k].status != db.tasks[k].status <==>
            c.IngestFailure? && c.task == db.tasks[k].id && !Consumed(db.journal, TaskKind, c.key)
  {
    StepMoves(db, c, k);
    SelectUnique(db.tasks, k);
  }

  /** Over a whole run: a closed task stays as it is if no failure is reported for it. */
  lemma {:induction false} ClosedStaysClosed(db: Db, commands: seq<Command>, k: nat)
    requires Coupled(db) && k < |db.tasks| && Closed(db.tasks[k].status)
    requires forall c <- commands :: c.IngestFailure? ==> c.task != db.tasks[k].id
    ensures Coupled(Run(db, commands))
    ensures |Run(db, commands).tasks| >= |db.tasks| && Run(db, commands).tasks[k] == db.tasks[k]
  {
    if commands == [] {
    } else {
      var before, last := Run(db, commands[..|commands| - 1]), commands[|commands| - 1];
      ClosedStaysClosed(db, commands[..|commands| - 1], k);
      assert last in commands;
      StepMoves(before, last, k);
      LeavesClosed(before, last, k);
      StepKeepsCoupling(before, last);
    }
  }

  lemma FailureCloses(db: Db, k: nat, key: string, other: string)
    requires Coupled(db) && k < |db.tasks| && key != other
    requires !Consumed(db.journal, TaskKind, key) && !Consumed(db.journal, TaskKind, other)
    ensures var task, next := db.tasks[k], Step(db, IngestFailure(key, db.tasks[k].id)).db;
            && |next.tasks| == |db.tasks| && next.tasks[k] == task.(status := TaskStatus.Failed)
            && AttemptCount(next.attempts, task.id) == AttemptCount(db.attempts, task.id)
            && !Consumed(next.journal, TaskKind, other)
  {
    SelectUnique(db.tasks, k);
    var next := Step(db, IngestFailure(key, db.tasks[k].id)).db;
    SameTasksSameCount(db.attempts, next.attempts, db.tasks[k].id);
  }

  lemma RetryReopens(db: Db, k: nat, key: string)
    requires Coupled(db) && k < |db.tasks| && db.tasks[k].status == TaskStatus.Failed
    requires !Consumed(db.journal, TaskKind, key)
    ensures var task, next := db.tasks[k], Step(db, ScheduleRetry(key, db.tasks[k].id)).db;
            && |next.tasks| == |db.tasks|
            && (next.tasks[k].status == TaskStatus.Queued <==>
                (task.budget.Some? ==> AttemptCount(db.attempts, task.id) < task.budget.value))
  {
    SelectUnique(db.tasks, k);
  }

  /** The other way round: one failure report and one retry put a closed task
      back in the queue exactly when its budget still allows an attempt. */
  lemma FailureReopens(db: Db, k: nat, failureKey: string, retryKey: string)
    requires Coupled(db) && k < |db.tasks| && Closed(db.tasks[k].status) && failureKey != retryKey
    requires !Consumed(db.journal, TaskKind, failureKey) && !Consumed(db.journal, TaskKind, retryKey)
    ensures var task := db.tasks[k];
            var failed := Step(db, IngestFailure(failureKey, task.id)).db;
            var after := Step(failed, ScheduleRetry(retryKey, task.id)).db.tasks;
            && |after| == |db.tasks|
            && (after[k].status == TaskStatus.Queued <==>
                (task.budget.Some? ==> AttemptCount(db.attempts, task.id) < task.budget.value))
  {
    FailureCloses(db, k, failureKey, retryKey);
    StepKeepsCoupling(db, IngestFailure(failureKey, db.tasks[k].id));
    RetryReopens(Step(db, IngestFailure(failureKey, db.tasks[k].id)).db, k, retryKey);
  }
}
