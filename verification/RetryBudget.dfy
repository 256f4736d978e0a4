/** Retries are bounded by the budget stored on the task row. */
module RetryBudget {
  import opened Text
  import opened ControlPlane
  import opened CommandSpec
  import opened Attempts
  import opened ExactlyOnce

  /** Attempts already started, plus the one a queued task is about to start. */
  function Load(attempts: seq<AttemptRow>, task: TaskRow): nat {
    AttemptCount(attempts, task.id) + if task.status == TaskStatus.Queued then 1 else 0
  }

  /** A completion that will put the task back in the queue:
      its key is new and the task is neither terminal nor queued already. */
  predicate RequeuesByCompletion(db: Db, c: Command, task: TaskRow) {
    && c.CompleteTask? && c.task == task.id && c.final == TaskStatus.Queued
    && !Consumed(db.journal, TaskKind, c.key) && !Terminal(task.status) && task.status != TaskStatus.Queued
  }

  lemma SelectUnique(tasks: seq<TaskRow>, k: nat)
    requires k < |tasks| && forall i, j :: 0 <= i < j < |tasks| ==> tasks[i].id < tasks[j].id
    ensures Select(tasks, TaskId, tasks[k].id) == Some(tasks[k])
  {
    var r := Select(tasks, TaskId, tasks[k].id);
    assert tasks[k] in tasks && TaskId(tasks[k]) == tasks[k].id;
  }

  lemma StartRowLoad(db: Db, row: TaskRow, k: nat)
    requires Coupled(db) && k < |db.tasks|
    ensures |StartRow(db, row).db.tasks| == |db.tasks|
    ensures StartRow(db, row).db.tasks[k] == db.tasks[k].(status := StartRow(db, row).db.tasks[k].status)
    ensures Load(StartRow(db, row).db.attempts, StartRow(db, row).db.tasks[k]) == Load(db.attempts, db.tasks[k])
  {
    if HasQueued(db.tasks, row.id) {
      var next := StartRow(db, row).db;
      assert next.attempts[..|next.attempts| - 1] == db.attempts;
      var q :| 0 <= q < |db.tasks| && db.tasks[q].id == row.id && db.tasks[q].status == TaskStatus.Queued;
      assert db.tasks[k].id == row.id ==> k == q;
    }
  }

  /** A dispatch round turns queue places into attempts, one for one. */
  lemma {:induction false} StartRowsLoad(db: Db, rows: seq<TaskRow>, k: nat)
    requires Coupled(db) && k < |db.tasks|
    ensures |StartRows(db, rows).db.tasks| == |db.tasks|
    ensures StartRows(db, rows).db.tasks[k] == db.tasks[k].(status := StartRows(db, rows).db.tasks[k].status)
    ensures Load(StartRows(db, rows).db.attempts, StartRows(db, rows).db.tasks[k]) == Load(db.attempts, db.tasks[k])
  {
    if rows == [] {
    } else {
      var rest := rows[..|rows| - 1];
      StartRowsLoad(db, rest, k);
      StartRowsKeepCoupling(db, rest);
      StartRowLoad(StartRows(db, rest).db, rows[|rows| - 1], k);
    }
  }

  /** From `db` to `next`, row `k` keeps everything but its status, and its load
      passes the larger of its budget and its old load exactly when `requeued`
      with the budget already used up. */
  ghost predicate LoadLaw(db: Db, next: Db, k: nat, requeued: bool)
    requires k < |db.tasks|
  {
    var task := db.tasks[k];
    && |next.tasks| >= |db.tasks|
    && next.tasks[k] == task.(status := next.tasks[k].status)
    && (task.budget.Some? ==>
        (Load(next.attempts, next.tasks[k]) > Max(task.budget.value, Load(db.attempts, task))
         <==> requeued && Load(db.attempts, task) >= task.budget.value))
  }

  lemma SettleLoad(db: Db, next: Db, k: nat, id: nat, status: TaskStatus, attemptStatus: TaskStatus)
    requires k < |db.tasks|
    requires next.tasks == SetTask(db.tasks, id, status)
    requires next.attempts == FinishAttempts(db.attempts, id, attemptStatus)
    ensures LoadLaw(db, next, k, db.tasks[k].id == id && status.Queued? && !db.tasks[k].status.Queued?)
  {
    SameTasksSameCount(db.attempts, next.attempts, db.tasks[k].id);
  }

  lemma RetryLoad(db: Db, next: Db, k: nat, id: nat)
    requires Coupled(db) && k < |db.tasks|
    requires Select(db.tasks, TaskId, id).Some?
    requires var b := Select(db.tasks, TaskId, id).value.budget;
             b.Some? ==> AttemptCount(db.attempts, id) < b.value
    requires next.tasks == SetTask(db.tasks, id, TaskStatus.Queued) && next.attempts == db.attempts
    ensures LoadLaw(db, next, k, false)
  {
    SelectUnique(db.tasks, k);
  }

  /** The effect that puts a task back in the queue without a budget check. */
  predicate RequeuesUnchecked(e: TaskEffect, task: TaskRow) {
    e.Settled? && e.id == task.id && e.status.Queued? && !task.status.Queued?
  }

  lemma EffectLoad(db: Db, next: Db, e: TaskEffect, k: nat)
    requires Coupled(db) && HasEffect(db, next, e) && k < |db.tasks|
    ensures LoadLaw(db, next, k, RequeuesUnchecked(e, db.tasks[k]))
  {
    match e
    case Untouched =>
    case Inserted(row) =>
    case Settled(id, status, attemptStatus) => SettleLoad(db, next, k, id, status, attemptStatus);
    case Requeued(id) => RetryLoad(db, next, k, id);
    case Started(rows) => StartRowsLoad(db, rows, k);
  }

  /** That effect is a completion's, and its guards can be read off beforehand. */
  lemma RequeueGuards(db: Db, c: Command, k: nat)
    requires Coupled(db) && k < |db.tasks|
    ensures RequeuesUnchecked(TaskEffectOf(db, c), db.tasks[k]) <==> RequeuesByCompletion(db, c, db.tasks[k])
  {
    SelectUnique(db.tasks, k);
  }

  /** No retry and no dispatch ever takes a task past its budget: only a
      completion that names `queued` as the final status does. */
  lemma StepLoad(db: Db, c: Command, k: nat)
    requires Coupled(db) && k < |db.tasks|
    ensures LoadLaw(db, Step(db, c).db, k, RequeuesByCompletion(db, c, db.tasks[k]))
  {
    StepHasEffect(db, c);
    EffectLoad(db, Step(db, c).db, TaskEffectOf(db, c), k);
    RequeueGuards(db, c, k);
  }

  ghost predicate NoRequeueByCompletion(commands: seq<Command>) {
    forall i :: 0 <= i < |commands| && commands[i].CompleteTask? ==> commands[i].final != TaskStatus.Queued
  }

  ghost predicate WithinBudgets(db: Db) {
    forall k :: 0 <= k < |db.tasks| && db.tasks[k].budget.Some? ==>
      Load(db.attempts, db.tasks[k]) <= Max(1, db.tasks[k].budget.value)
  }

  lemma NoAttemptsYet(tasks: seq<TaskRow>, attempts: seq<AttemptRow>, id: nat)
    requires AttemptsOwned(tasks, attempts) && !HasTask(tasks, id)
    ensures AttemptCount(attempts, id) == 0
  {
    if attempts != [] {
      var rest := attempts[..|attempts| - 1];
      assert forall i :: 0 <= i < |rest| ==> rest[i].task == attempts[i].task;
      NoAttemptsYet(tasks, rest, id);
      assert HasTask(tasks, attempts[|attempts| - 1].task);
    }
  }

  /** A row that was not there before is fresh: it has no attempts. */
  lemma EffectNewTask(db: Db, next: Db, e: TaskEffect, k: nat)
    requires Coupled(db) && HasEffect(db, next, e) && |db.tasks| <= k < |next.tasks|
    ensures AttemptCount(next.attempts, next.tasks[k].id) == 0
  {
    if e.Inserted? {
      assert !HasTask(db.tasks, db.next);
      NoAttemptsYet(db.tasks, db.attempts, db.next);
    } else if e.Started? {
      StartRowsSize(db, e.rows);
    }
  }

  lemma {:induction false} StartRowsSize(db: Db, rows: seq<TaskRow>)
    ensures |StartRows(db, rows).db.tasks| == |db.tasks|
  {
    if rows == [] {
    } else {
      StartRowsSize(db, rows[..|rows| - 1]);
    }
  }

  lemma StepNewTask(db: Db, c: Command, k: nat)
    requires Coupled(db) && |db.tasks| <= k < |Step(db, c).db.tasks|
    ensures AttemptCount(Step(db, c).db.attempts, Step(db, c).db.tasks[k].id) == 0
  {
    StepHasEffect(db, c);
    EffectNewTask(db, Step(db, c).db, TaskEffectOf(db, c), k);
  }

  lemma StepWithinBudgets(db: Db, c: Command)
    requires Coupled(db) && WithinBudgets(db)
    requires c.CompleteTask? ==> c.final != TaskStatus.Queued
    ensures WithinBudgets(Step(db, c).db)
  {
    var next := Step(db, c).db;
    forall k | 0 <= k < |next.tasks| && next.tasks[k].budget.Some?
      ensures Load(next.attempts, next.tasks[k]) <= Max(1, next.tasks[k].budget.value)
    {
      if k < |db.tasks| {
        StepLoad(db, c, k);
      } else {
        StepNewTask(db, c, k);
      }
    }
  }

  /** Main result: over every run that never completes a task as `queued`, a
      task with budget b is dispatched at most max(1, b) times. */
  lemma {:induction false} RetryBound(commands: seq<Command>)
    requires NoRequeueByCompletion(commands)
    ensures WithinBudgets(Run(EMPTY, commands))
  {
    if commands == [] {
    } else {
      RetryBound(commands[..|commands| - 1]);
      ReachableCoupled(commands[..|commands| - 1]);
      StepWithinBudgets(Run(EMPTY, commands[..|commands| - 1]), commands[|commands| - 1]);
    }
  }

  // Total number of dispatches

  /** The sum of max(1, b) over the tasks with a budget b. */
  function BudgetSum(tasks: seq<TaskRow>): int {
    if tasks == [] then 0
    else
      var last := tasks[|tasks| - 1];
      BudgetSum(tasks[..|tasks| - 1]) + if last.budget.Some? then Max(1, last.budget.value) else 0
  }

  predicate HasBudgeted(tasks: seq<TaskRow>, id: nat) {
    exists k :: 0 <= k < |tasks| && tasks[k].id == id && tasks[k].budget.Some?
  }

  /** The attempts of tasks with a budget. */
  function BudgetedAttempts(attempts: seq<AttemptRow>, tasks: seq<TaskRow>): nat {
    if attempts == [] then 0
    else
      BudgetedAttempts(attempts[..|attempts| - 1], tasks)
      + if HasBudgeted(tasks, attempts[|attempts| - 1].task) then 1 else 0
  }

  /** The same number, added up task by task. */
  function CountByTask(attempts: seq<AttemptRow>, tasks: seq<TaskRow>): nat {
    if tasks == [] then 0
    else
      var last := tasks[|tasks| - 1];
      CountByTask(attempts, tasks[..|tasks| - 1]) + if last.budget.Some? then AttemptCount(attempts, last.id) else 0
  }

  lemma {:induction false} CountOneMore(attempts: seq<AttemptRow>, tasks: seq<TaskRow>)
    requires attempts != []
    requires forall i, j :: 0 <= i < j < |tasks| ==> tasks[i].id < tasks[j].id
    ensures CountByTask(attempts, tasks) ==
            CountByTask(attempts[..|attempts| - 1], tasks)
            + if HasBudgeted(tasks, attempts[|attempts| - 1].task) then 1 else 0
  {
    if tasks == [] {
    } else {
      var rest, last, id := tasks[..|tasks| - 1], tasks[|tasks| - 1], attempts[|attempts| - 1].task;
      CountOneMore(attempts, rest);
      if HasBudgeted(rest, id) {
        var k :| 0 <= k < |rest| && rest[k].id == id && rest[k].budget.Some?;
        assert tasks[k].id == id && last.id > tasks[k].id;
      } else if last.id == id && last.budget.Some? {
        assert tasks[|tasks| - 1].id == id;
      } else {
        assert forall k :: 0 <= k < |rest| ==> rest[k] == tasks[k];
      }
    }
  }

  /** Counting attempt by attempt and task by task comes to the same. */
  lemma {:induction false} EveryAttemptCounted(attempts: seq<AttemptRow>, tasks: seq<TaskRow>)
    requires forall i, j :: 0 <= i < j < |tasks| ==> tasks[i].id < tasks[j].id
    ensures CountByTask(attempts, tasks) == BudgetedAttempts(attempts, tasks)
  {
    if attempts == [] {
      CountNone(tasks);
    } else {
      EveryAttemptCounted(attempts[..|attempts| - 1], tasks);
      CountOneMore(attempts, tasks);
    }
  }

  lemma CountNone(tasks: seq<TaskRow>)
    ensures CountByTask([], tasks) == 0
  {
  }

  lemma {:induction false} CountWithinBudgets(attempts: seq<AttemptRow>, tasks: seq<TaskRow>)
    requires forall t <- tasks :: t.budget.Some? ==> AttemptCount(attempts, t.id) <= Max(1, t.budget.value)
    ensures CountByTask(attempts, tasks) <= BudgetSum(tasks)
  {
    if tasks == [] {
    } else {
      CountWithinBudgets(attempts, tasks[..|tasks| - 1]);
    }
  }

  lemma {:induction false} AllBudgeted(attempts: seq<AttemptRow>, tasks: seq<TaskRow>)
    requires AttemptsOwned(tasks, attempts) && forall t <- tasks :: t.budget.Some?
    ensures BudgetedAttempts(attempts, tasks) == |attempts|
  {
    if attempts == [] {
    } else {
      var rest, id := attempts[..|attempts| - 1], attempts[|attempts| - 1].task;
      assert forall i :: 0 <= i < |rest| ==> rest[i].task == attempts[i].task;
      AllBudgeted(rest, tasks);
      assert HasTask(tasks, id);
      var k :| 0 <= k < |tasks| && tasks[k].id == id;
      assert tasks[k] in tasks;
    }
  }

  /** The tasks with a budget are together dispatched at most the sum of
      max(1, b) times, whatever other tasks there are; if every task has one,
      that bounds all dispatches, so dispatch and retry cannot go on for ever. */
  lemma TotalDispatchesBounded(commands: seq<Command>)
    requires NoRequeueByCompletion(commands)
    ensures var db := Run(EMPTY, commands);
            && BudgetedAttempts(db.attempts, db.tasks) <= BudgetSum(db.tasks)
            && ((forall t <- db.tasks :: t.budget.Some?) ==> |db.attempts| <= BudgetSum(db.tasks))
  {
    var db := Run(EMPTY, commands);
    RetryBound(commands);
    ReachableCoupled(commands);
    EveryAttemptCounted(db.attempts, db.tasks);
    forall t <- db.tasks | t.budget.Some? ensures AttemptCount(db.attempts, t.id) <= Max(1, t.budget.value) {
      var k :| 0 <= k < |db.tasks| && db.tasks[k] == t;
      assert Load(db.attempts, db.tasks[k]) <= Max(1, t.budget.value);
    }
    CountWithinBudgets(db.attempts, db.tasks);
    if forall t <- db.tasks :: t.budget.Some? {
      AllBudgeted(db.attempts, db.tasks);
    }
  }
}
