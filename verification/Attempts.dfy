/** Tasks and their attempts stay coupled in every reachable state. */
module Attempts {
  import opened Text
  import opened ControlPlane
  import opened CommandSpec

  /** Task rows carry distinct ids in creation order, all below the counter. */
  ghost predicate TasksOrdered(tasks: seq<TaskRow>, next: nat) {
    && (forall i :: 0 <= i < |tasks| ==> tasks[i].id < next)
    && (forall i, j :: 0 <= i < j < |tasks| ==> tasks[i].id < tasks[j].id)
  }

  predicate HasTask(tasks: seq<TaskRow>, id: nat) {
    exists k :: 0 <= k < |tasks| && tasks[k].id == id
  }

  /** The attempts of each task are numbered 1, 2, 3, ... in creation order. */
  ghost predicate Numbered(attempts: seq<AttemptRow>) {
    forall k :: 0 <= k < |attempts| ==> attempts[k].index == AttemptCount(attempts[..k], attempts[k].task) + 1
  }

  ghost predicate AttemptsOwned(tasks: seq<TaskRow>, attempts: seq<AttemptRow>) {
    forall i :: 0 <= i < |attempts| ==> HasTask(tasks, attempts[i].task)
  }

  ghost predicate OneRunning(attempts: seq<AttemptRow>) {
    forall i, j :: 0 <= i < j < |attempts| && attempts[i].status.Running? && attempts[j].status.Running? ==>
      attempts[i].task != attempts[j].task
  }

  ghost predicate RunningAttemptRunningTask(tasks: seq<TaskRow>, attempts: seq<AttemptRow>) {
    forall i, k | 0 <= i < |attempts| && 0 <= k < |tasks| ::
      attempts[i].status.Running? && tasks[k].id == attempts[i].task ==> tasks[k].status.Running?
  }

  ghost predicate Coupled(db: Db) {
    && TasksOrdered(db.tasks, db.next)
    && Numbered(db.attempts)
    && AttemptsOwned(db.tasks, db.attempts)
    && OneRunning(db.attempts)
    && RunningAttemptRunningTask(db.tasks, db.attempts)
  }

  lemma {:induction false} SameTasksSameCount(a: seq<AttemptRow>, b: seq<AttemptRow>, task: nat)
    requires |a| == |b| && forall i :: 0 <= i < |a| ==> a[i].task == b[i].task
    ensures AttemptCount(a, task) == AttemptCount(b, task)
  {
    if a == [] {
    } else {
      SameTasksSameCount(a[..|a| - 1], b[..|b| - 1], task);
    }
  }

  lemma FinishKeepsNumbers(attempts: seq<AttemptRow>, task: nat, status: TaskStatus)
    requires Numbered(attempts)
    ensures Numbered(FinishAttempts(attempts, task, status))
  {
    var b := FinishAttempts(attempts, task, status);
    forall k | 0 <= k < |b| ensures b[k].index == AttemptCount(b[..k], b[k].task) + 1 {
      SameTasksSameCount(attempts[..k], b[..k], b[k].task);
    }
  }

  /** The MAX that dispatch reads is the COUNT that retry reads. */
  lemma {:induction false} MaxIsCount(attempts: seq<AttemptRow>, task: nat)
    requires Numbered(attempts)
    ensures MaxIndex(attempts, task) ==
            if AttemptCount(attempts, task) == 0 then None else Some(AttemptCount(attempts, task) as int)
  {
    if attempts == [] {
    } else {
      var rest := attempts[..|attempts| - 1];
      assert forall k :: 0 <= k < |rest| ==> attempts[..k] == rest[..k];
      MaxIsCount(rest, task);
    }
  }

  lemma StartKeepsNumbers(attempts: seq<AttemptRow>, a: AttemptRow)
    requires Numbered(attempts) && a.index == NextIndex(attempts, a.task)
    ensures Numbered(attempts + [a])
  {
    MaxIsCount(attempts, a.task);
    var b := attempts + [a];
    forall k | 0 <= k < |b| ensures b[k].index == AttemptCount(b[..k], b[k].task) + 1 {
      assert b[..k] == attempts[..k];
      assert k == |attempts| ==> attempts[..k] == attempts;
    }
  }

  /** Every row of `before` is still there, under the same id. */
  ghost predicate KeepsTaskIds(before: seq<TaskRow>, after: seq<TaskRow>) {
    |before| <= |after| && forall i :: 0 <= i < |before| ==> before[i].id == after[i].id
  }

  lemma OwnedByKeptTasks(tasks: seq<TaskRow>, after: seq<TaskRow>, attempts: seq<AttemptRow>)
    requires AttemptsOwned(tasks, attempts) && KeepsTaskIds(tasks, after)
    ensures AttemptsOwned(after, attempts)
  {
    forall i | 0 <= i < |attempts| ensures HasTask(after, attempts[i].task) {
      assert HasTask(tasks, attempts[i].task);
      var k :| 0 <= k < |tasks| && tasks[k].id == attempts[i].task;
      assert after[k].id == attempts[i].task;
    }
  }

  lemma InsertKeepsCoupling(db: Db, next: Db, row: TaskRow)
    requires Coupled(db) && row.id == db.next && next.next > db.next
    requires next.tasks == db.tasks + [row] && next.attempts == db.attempts
    ensures Coupled(next)
  {
    OwnedByKeptTasks(db.tasks, next.tasks, db.attempts);
    forall i, k | 0 <= i < |next.attempts| && 0 <= k < |next.tasks| && next.attempts[i].status.Running? &&
      next.tasks[k].id == next.attempts[i].task
      ensures next.tasks[k].status.Running?
    {
      assert HasTask(db.tasks, db.attempts[i].task);
    }
  }

  lemma FinishKeepsRunning(tasks: seq<TaskRow>, attempts: seq<AttemptRow>, id: nat, status: TaskStatus,
                           attemptStatus: TaskStatus)
    requires OneRunning(attempts) && RunningAttemptRunningTask(tasks, attempts)
    requires attemptStatus.Running? ==> status.Running?
    ensures OneRunning(FinishAttempts(attempts, id, attemptStatus))
    ensures RunningAttemptRunningTask(SetTask(tasks, id, status), FinishAttempts(attempts, id, attemptStatus))
  {
    var b, t := FinishAttempts(attempts, id, attemptStatus), SetTask(tasks, id, status);
    assert forall i :: 0 <= i < |b| && b[i].status.Running? ==> attempts[i].status.Running?;
    forall i, k | 0 <= i < |b| && 0 <= k < |t| && b[i].status.Running? && t[k].id == b[i].task
      ensures t[k].status.Running?
    {
      assert tasks[k].status.Running?;
    }
  }

  lemma SettleKeepsCoupling(db: Db, next: Db, id: nat, status: TaskStatus, attemptStatus: TaskStatus)
    requires Coupled(db) && next.next >= db.next
    requires next.tasks == SetTask(db.tasks, id, status)
    requires next.attempts == FinishAttempts(db.attempts, id, attemptStatus)
    requires attemptStatus.Running? ==> status.Running?
    ensures Coupled(next)
  {
    FinishKeepsNumbers(db.attempts, id, attemptStatus);
    FinishKeepsRunning(db.tasks, db.attempts, id, status, attemptStatus);
    OwnedByKeptTasks(db.tasks, next.tasks, db.attempts);
    assert forall i :: 0 <= i < |next.attempts| ==> next.attempts[i].task == db.attempts[i].task;
  }

  lemma RequeueKeepsCoupling(db: Db, next: Db, id: nat)
    requires Coupled(db) && next.next >= db.next
    requires Select(db.tasks, TaskId, id).Some? && !Select(db.tasks, TaskId, id).value.status.Running?
    requires next.tasks == SetTask(db.tasks, id, TaskStatus.Queued) && next.attempts == db.attempts
    ensures Coupled(next)
  {
    OwnedByKeptTasks(db.tasks, next.tasks, db.attempts);
  }

  /** A queued task has no running attempt, so the one that starts is its only one. */
  lemma StartKeepsRunning(tasks: seq<TaskRow>, attempts: seq<AttemptRow>, a: AttemptRow)
    requires OneRunning(attempts) && RunningAttemptRunningTask(tasks, attempts)
    requires forall i, j :: 0 <= i < j < |tasks| ==> tasks[i].id < tasks[j].id
    requires HasQueued(tasks, a.task)
    ensures OneRunning(attempts + [a])
    ensures RunningAttemptRunningTask(StartTask(tasks, a.task), attempts + [a])
  {
    var b, t := attempts + [a], StartTask(tasks, a.task);
    var q :| 0 <= q < |tasks| && tasks[q].id == a.task && tasks[q].status == TaskStatus.Queued;
    forall i, k | 0 <= i < |b| && 0 <= k < |t| && b[i].status.Running? && t[k].id == b[i].task
      ensures t[k].status.Running?
    {
      assert i < |attempts| ==> tasks[k].status.Running?;
      assert i == |attempts| ==> k == q;
    }
  }

  lemma StartRowKeepsCoupling(db: Db, row: TaskRow)
    requires Coupled(db)
    ensures Coupled(StartRow(db, row).db)
  {
    if HasQueued(db.tasks, row.id) {
      var next := StartRow(db, row).db;
      var a := next.attempts[|db.attempts|];
      StartKeepsNumbers(db.attempts, a);
      StartKeepsRunning(db.tasks, db.attempts, a);
      OwnedByKeptTasks(db.tasks, next.tasks, db.attempts);
      var q :| 0 <= q < |db.tasks| && db.tasks[q].id == row.id && db.tasks[q].status == TaskStatus.Queued;
      assert next.tasks[q].id == row.id;
    }
  }

  lemma {:induction false} StartRowsKeepCoupling(db: Db, rows: seq<TaskRow>)
    requires Coupled(db)
    ensures Coupled(StartRows(db, rows).db)
  {
    if rows == [] {
    } else {
      StartRowsKeepCoupling(db, rows[..|rows| - 1]);
      StartRowKeepsCoupling(StartRows(db, rows[..|rows| - 1]).db, rows[|rows| - 1]);
    }
  }

  /** The five ways a command can touch tasks and attempts. */
  datatype TaskEffect =
    | Untouched
    | Inserted(row: TaskRow)
    | Settled(id: nat, status: TaskStatus, attemptStatus: TaskStatus)
    | Requeued(id: nat)
    | Started(rows: seq<TaskRow>)

  function TaskEffectOf(db: Db, c: Command): TaskEffect {
    if Step(db, c).outcome.Rejected? || Step(db, c).outcome.idempotentSkip then Untouched
    else
      match c
      case CreateTask(_, node, role, skill, status) => Inserted(TaskRow(db.next, node, role, skill, status, None))
      case AutoTask(_, node, role, skill, blocked, budget) =>
        Inserted(TaskRow(db.next, node, role, skill,
                         if blocked then TaskStatus.Queued else TaskStatus.Running, Some(budget)))
      case CompleteTask(_, id, final) => Settled(id, final, final)
      case IngestFailure(_, id) => Settled(id, TaskStatus.Failed, TaskStatus.Failed)
      case IngestTimeout(_, id) => Settled(id, TaskStatus.Failed, TimedOut)
      case ScheduleRetry(_, id) => Requeued(id)
      case DispatchRound(_, scope, max) => Started(Limit(QueuedRows(db, db.tasks, scope), max))
      case _ => Untouched
  }

  ghost predicate HasEffect(db: Db, next: Db, e: TaskEffect) {
    && next.next >= db.next
    && match e
       case Untouched => next.tasks == db.tasks && next.attempts == db.attempts
       case Inserted(row) =>
         && row.id == db.next && next.next > db.next
         && next.tasks == db.tasks + [row] && next.attempts == db.attempts
       case Settled(id, status, attemptStatus) =>
         && next.tasks == SetTask(db.tasks, id, status)
         && next.attempts == FinishAttempts(db.attempts, id, attemptStatus)
       case Requeued(id) =>
         && next.tasks == SetTask(db.tasks, id, TaskStatus.Queued) && next.attempts == db.attempts
         && var found := Select(db.tasks, TaskId, id);
            && found.Some? && found.value.status.Failed?
            && (found.value.budget.Some? ==> AttemptCount(db.attempts, id) < found.value.budget.value)
       case Started(rows) =>
         var r := StartRows(db, rows).db;
         next.tasks == r.tasks && next.attempts == r.attempts && next.next >= r.next
  }

  lemma {:induction false} StartRowsCountUp(db: Db, rows: seq<TaskRow>)
    ensures StartRows(db, rows).db.next >= db.next
  {
    if rows == [] {
    } else {
      StartRowsCountUp(db, rows[..|rows| - 1]);
    }
  }

  lemma OutcomeHasEffect(db: Db, c: Command)
    requires c.CompleteTask? || c.IngestFailure?
    ensures HasEffect(db, Step(db, c).db, TaskEffectOf(db, c))
  {
  }

  lemma ReportHasEffect(db: Db, c: Command)
    requires ReportsOnTask(c)
    ensures HasEffect(db, Step(db, c).db, TaskEffectOf(db, c))
  {
    if c.CompleteTask? || c.IngestFailure? {
      OutcomeHasEffect(db, c);
    }
  }

  lemma OtherHasEffect(db: Db, c: Command)
    requires !ReportsOnTask(c)
    ensures HasEffect(db, Step(db, c).db, TaskEffectOf(db, c))
  {
    if c.DispatchRound? {
      StartRowsCountUp(db, Limit(QueuedRows(db, db.tasks, c.scope), c.max));
    }
  }

  lemma StepHasEffect(db: Db, c: Command)
    ensures HasEffect(db, Step(db, c).db, TaskEffectOf(db, c))
  {
    if ReportsOnTask(c) {
      ReportHasEffect(db, c);
    } else {
      OtherHasEffect(db, c);
    }
  }

  lemma EffectKeepsCoupling(db: Db, next: Db, e: TaskEffect)
    requires Coupled(db) && HasEffect(db, next, e)
    requires e.Settled? && e.attemptStatus.Running? ==> e.status.Running?
    ensures Coupled(next)
  {
    match e
    case Untouched =>
    case Inserted(row) => InsertKeepsCoupling(db, next, row);
    case Settled(id, status, attemptStatus) => SettleKeepsCoupling(db, next, id, status, attemptStatus);
    case Requeued(id) => RequeueKeepsCoupling(db, next, id);
    case Started(rows) => StartRowsKeepCoupling(db, rows);
  }

  lemma StepKeepsCoupling(db: Db, c: Command)
    requires Coupled(db)
    ensures Coupled(Step(db, c).db)
  {
    StepHasEffect(db, c);
    EffectKeepsCoupling(db, Step(db, c).db, TaskEffectOf(db, c));
  }

  /** Main result: whatever commands have run, attempts and tasks are coupled. */
  lemma {:induction false} ReachableCoupled(commands: seq<Command>)
    ensures Coupled(Run(EMPTY, commands))
  {
    if commands == [] {
    } else {
      ReachableCoupled(commands[..|commands| - 1]);
      StepKeepsCoupling(Run(EMPTY, commands[..|commands| - 1]), commands[|commands| - 1]);
    }
  }
}
