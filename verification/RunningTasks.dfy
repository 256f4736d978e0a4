/** How tasks come to run: with an attempt, by a dispatch, or without one. */
module RunningTasks {
  import opened Text
  import opened ControlPlane
  import opened CommandSpec
  import opened Attempts
  import opened ExactlyOnce
  import opened RetryBudget

  predicate RunningAt(tasks: seq<TaskRow>, id: nat) {
    exists k :: 0 <= k < |tasks| && tasks[k].id == id && tasks[k].status.Running?
  }

  predicate HasRunningAttempt(attempts: seq<AttemptRow>, id: nat) {
    exists i :: 0 <= i < |attempts| && attempts[i].task == id && attempts[i].status.Running?
  }

  /** The effect that sets a task running without an attempt. */
  predicate BringsRunning(e: TaskEffect, tasks: seq<TaskRow>, id: nat) {
    || (e.Inserted? && e.row.id == id && e.row.status.Running?)
    || (e.Settled? && e.id == id && e.status.Running? && HasTask(tasks, id) && !RunningAt(tasks, id))
  }

  /** A step in which the task begins to run without an attempt: the tick inserts
      it unblocked, a command inserts it as running, or a completion names
      running for a task that is neither terminal nor running. */
  predicate RunsBare(db: Db, c: Command, id: nat) {
    match c
    case AutoTask(key, _, _, _, blocked, _) => id == db.next && !blocked && !Consumed(db.journal, TaskKind, key)
    case CreateTask(key, node, _, _, status) =>
      && id == db.next && status.Running? && !Consumed(db.journal, TaskKind, key)
      && Select(db.nodes, NodeId, node).Some?
    case CompleteTask(key, task, final) =>
      var found := Select(db.tasks, TaskId, id);
      && task == id && final.Running? && !Consumed(db.journal, TaskKind, key)
      && found.Some? && !Terminal(found.value.status) && !found.value.status.Running?
    case _ => false
  }

  lemma FoundRunning(tasks: seq<TaskRow>, id: nat)
    requires forall i, j :: 0 <= i < j < |tasks| ==> tasks[i].id < tasks[j].id
    ensures var found := Select(tasks, TaskId, id);
            && (found.Some? <==> HasTask(tasks, id))
            && (found.Some? ==> (found.value.status.Running? <==> RunningAt(tasks, id)))
  {
    if HasTask(tasks, id) {
      var k :| 0 <= k < |tasks| && tasks[k].id == id;
      SelectUnique(tasks, k);
    }
  }

  /** That effect's guards can be read off beforehand. */
  lemma BareGuards(db: Db, c: Command, id: nat)
    requires Coupled(db)
    ensures BringsRunning(TaskEffectOf(db, c), db.tasks, id) <==> RunsBare(db, c, id)
  {
    FoundRunning(db.tasks, id);
  }

  // What an effect does to one task

  /** From one store to the next: a task that begins to run gains an attempt, and
      a running one, unless `bare`; a task that goes on running keeps what it had. */
  ghost predicate Enters(tasks: seq<TaskRow>, attempts: seq<AttemptRow>, tasks': seq<TaskRow>,
                         attempts': seq<AttemptRow>, id: nat, bare: bool)
  {
    var begins := !RunningAt(tasks, id) && RunningAt(tasks', id);
    && (bare ==> begins)
    && AttemptCount(attempts', id) == AttemptCount(attempts, id) + (if begins && !bare then 1 else 0)
    && (RunningAt(tasks', id) ==>
        (HasRunningAttempt(attempts', id) <==> if begins then !bare else HasRunningAttempt(attempts, id)))
  }

  lemma OtherRow(db: Db, row: TaskRow, id: nat)
    requires row.id != id
    ensures var next := StartRow(db, row).db;
            && (RunningAt(next.tasks, id) <==> RunningAt(db.tasks, id))
            && (HasRunningAttempt(next.attempts, id) <==> HasRunningAttempt(db.attempts, id))
            && AttemptCount(next.attempts, id) == AttemptCount(db.attempts, id)
  {
    var next := StartRow(db, row).db;
    if HasQueued(db.tasks, row.id) {
      assert next.attempts[..|db.attempts|] == db.attempts;
      assert forall i | 0 <= i < |db.attempts| :: next.attempts[i] == db.attempts[i];
      assert forall k | 0 <= k < |db.tasks| && db.tasks[k].id == id :: next.tasks[k] == db.tasks[k];
    }
  }

  lemma OwnRow(db: Db, row: TaskRow)
    requires Coupled(db) && HasQueued(db.tasks, row.id)
    ensures var next := StartRow(db, row).db;
            && !RunningAt(db.tasks, row.id) && RunningAt(next.tasks, row.id)
            && HasRunningAttempt(next.attempts, row.id)
            && AttemptCount(next.attempts, row.id) == AttemptCount(db.attempts, row.id) + 1
  {
    var next := StartRow(db, row).db;
    var q :| 0 <= q < |db.tasks| && db.tasks[q].id == row.id && db.tasks[q].status == TaskStatus.Queued;
    assert next.tasks[q].status.Running?;
    assert next.attempts[|db.attempts|].task == row.id && next.attempts[..|db.attempts|] == db.attempts;
  }

  lemma {:induction false} StartsEnter(db: Db, rows: seq<TaskRow>, id: nat)
    requires Coupled(db)
    ensures var r := StartRows(db, rows).db;
            Enters(db.tasks, db.attempts, r.tasks, r.attempts, id, false)
            && (RunningAt(db.tasks, id) ==> RunningAt(r.tasks, id))
  {
    if rows == [] {
    } else {
      var rest, row := rows[..|rows| - 1], rows[|rows| - 1];
      StartsEnter(db, rest, id);
      StartRowsKeepCoupling(db, rest);
      if row.id != id {
        OtherRow(StartRows(db, rest).db, row, id);
      } else if HasQueued(StartRows(db, rest).db.tasks, id) {
        OwnRow(StartRows(db, rest).db, row);
      }
    }
  }

  lemma NoneBefore(tasks: seq<TaskRow>, attempts: seq<AttemptRow>, id: nat)
    requires AttemptsOwned(tasks, attempts) && !HasTask(tasks, id)
    ensures !HasRunningAttempt(attempts, id)
  {
    assert forall i | 0 <= i < |attempts| :: HasTask(tasks, attempts[i].task);
  }

  lemma InsertEnters(db: Db, next: Db, row: TaskRow, id: nat)
    requires Coupled(db) && row.id == db.next && next.tasks == db.tasks + [row] && next.attempts == db.attempts
    ensures Enters(db.tasks, db.attempts, next.tasks, next.attempts, id, row.id == id && row.status.Running?)
  {
    assert forall k | 0 <= k < |db.tasks| :: next.tasks[k] == db.tasks[k];
    assert next.tasks[|db.tasks|] == row;
    if row.id == id {
      NoneBefore(db.tasks, db.attempts, id);
    }
  }

  /** Settling never makes an attempt running, and keeps one running only if it
      keeps the task running. */
  lemma SettleAttempts(attempts: seq<AttemptRow>, settled: nat, status: TaskStatus, id: nat)
    ensures AttemptCount(FinishAttempts(attempts, settled, status), id) == AttemptCount(attempts, id)
    ensures HasRunningAttempt(FinishAttempts(attempts, settled, status), id)
            <==> HasRunningAttempt(attempts, id) && (settled == id ==> status.Running?)
  {
    var after := FinishAttempts(attempts, settled, status);
    SameTasksSameCount(attempts, after, id);
    if HasRunningAttempt(attempts, id) && (settled == id ==> status.Running?) {
      var i :| 0 <= i < |attempts| && attempts[i].task == id && attempts[i].status.Running?;
      assert after[i].status.Running?;
    }
  }

  lemma SettleTasks(tasks: seq<TaskRow>, settled: nat, status: TaskStatus, id: nat)
    ensures RunningAt(SetTask(tasks, settled, status), id)
            <==> if settled == id then HasTask(tasks, id) && status.Running? else RunningAt(tasks, id)
  {
    var after := SetTask(tasks, settled, status);
    if HasTask(tasks, id) && settled == id && status.Running? {
      var k :| 0 <= k < |tasks| && tasks[k].id == id;
      assert after[k].status.Running?;
    }
    if RunningAt(tasks, id) && settled != id {
      var k :| 0 <= k < |tasks| && tasks[k].id == id && tasks[k].status.Running?;
      assert after[k].status.Running?;
    }
  }

  lemma RunningAttemptRuns(tasks: seq<TaskRow>, attempts: seq<AttemptRow>, id: nat)
    requires AttemptsOwned(tasks, attempts) && RunningAttemptRunningTask(tasks, attempts)
    requires HasRunningAttempt(attempts, id)
    ensures RunningAt(tasks, id)
  {
    var i :| 0 <= i < |attempts| && attempts[i].task == id && attempts[i].status.Running?;
    assert HasTask(tasks, attempts[i].task);
    var k :| 0 <= k < |tasks| && tasks[k].id == id;
  }

  lemma SettleEnters(db: Db, next: Db, settled: nat, status: TaskStatus, attemptStatus: TaskStatus, id: nat)
    requires Coupled(db) && (status.Running? <==> attemptStatus.Running?)
    requires next.tasks == SetTask(db.tasks, settled, status)
    requires next.attempts == FinishAttempts(db.attempts, settled, attemptStatus)
    ensures Enters(db.tasks, db.attempts, next.tasks, next.attempts, id,
                   settled == id && status.Running? && HasTask(db.tasks, id) && !RunningAt(db.tasks, id))
  {
    SettleAttempts(db.attempts, settled, attemptStatus, id);
    SettleTasks(db.tasks, settled, status, id);
    if HasRunningAttempt(db.attempts, id) {
      RunningAttemptRuns(db.tasks, db.attempts, id);
    }
  }

  lemma EffectEnters(db: Db, next: Db, e: TaskEffect, id: nat)
    requires Coupled(db) && HasEffect(db, next, e)
    requires e.Settled? ==> (e.status.Running? <==> e.attemptStatus.Running?)
    ensures Enters(db.tasks, db.attempts, next.tasks, next.attempts, id, BringsRunning(e, db.tasks, id))
  {
    match e
    case Untouched =>
    case Inserted(row) => InsertEnters(db, next, row, id);
    case Settled(settled, status, attemptStatus) => SettleEnters(db, next, settled, status, attemptStatus, id);
    case Requeued(requeued) => SettleTasks(db.tasks, requeued, TaskStatus.Queued, id);
    case Started(rows) => StartsEnter(db, rows, id);
  }

  /** Every step: a task that begins to run gains an attempt exactly when it does
      not begin bare. */
  lemma StepEnters(db: Db, c: Command, id: nat)
    requires Coupled(db)
    ensures var next := Step(db, c).db;
            Enters(db.tasks, db.attempts, next.tasks, next.attempts, id, RunsBare(db, c, id))
  {
    StepHasEffect(db, c);
    EffectEnters(db, Step(db, c).db, TaskEffectOf(db, c), id);
    BareGuards(db, c, id);
  }

  // Runs

  predicate RunsAfter(commands: seq<Command>, id: nat, m: nat)
    requires m <= |commands|
  {
    RunningAt(Run(EMPTY, commands[..m]).tasks, id)
  }

  predicate StartsBare(commands: seq<Command>, id: nat, n: nat)
    requires n < |commands|
  {
    RunsBare(Run(EMPTY, commands[..n]), commands[n], id)
  }

  /** The task began to run without an attempt in step `n`, and runs since. */
  ghost predicate BareSince(commands: seq<Command>, id: nat, n: nat)
    requires n < |commands|
  {
    StartsBare(commands, id, n) && forall m | n < m <= |commands| :: RunsAfter(commands, id, m)
  }

  ghost predicate RunsWithoutAttempt(db: Db, id: nat) {
    RunningAt(db.tasks, id) && !HasRunningAttempt(db.attempts, id)
  }

  lemma SamePrefix(commands: seq<Command>, id: nat, m: nat)
    requires m < |commands|
    ensures RunsAfter(commands[..|commands| - 1], id, m) <==> RunsAfter(commands, id, m)
    ensures m < |commands| - 1 ==> (StartsBare(commands[..|commands| - 1], id, m) <==> StartsBare(commands, id, m))
  {
    assert commands[..|commands| - 1][..m] == commands[..m];
  }

  lemma BareBefore(commands: seq<Command>, id: nat, n: nat)
    requires n < |commands| - 1 && RunsAfter(commands, id, |commands|)
    ensures BareSince(commands[..|commands| - 1], id, n) <==> BareSince(commands, id, n)
  {
    var rest := commands[..|commands| - 1];
    SamePrefix(commands, id, n);
    if BareSince(rest, id, n) {
      forall m | n < m <= |commands| ensures RunsAfter(commands, id, m) {
        if m < |commands| {
          SamePrefix(commands, id, m);
        }
      }
    }
    if BareSince(commands, id, n) {
      forall m | n < m <= |rest| ensures RunsAfter(rest, id, m) {
        SamePrefix(commands, id, m);
      }
    }
  }

  lemma LastStep(commands: seq<Command>, id: nat)
    requires commands != []
    ensures var n := |commands| - 1;
            var db, next := Run(EMPTY, commands[..n]), Run(EMPTY, commands);
            && (RunsAfter(commands, id, n) <==> RunningAt(db.tasks, id))
            && (RunsAfter(commands, id, n + 1) <==> RunningAt(next.tasks, id))
            && Enters(db.tasks, db.attempts, next.tasks, next.attempts, id, StartsBare(commands, id, n))
  {
    ReachableCoupled(commands[..|commands| - 1]);
    StepEnters(Run(EMPTY, commands[..|commands| - 1]), commands[|commands| - 1], id);
    assert commands[..|commands|] == commands;
  }

  lemma BareAtLast(commands: seq<Command>, id: nat)
    requires commands != [] && RunsAfter(commands, id, |commands|)
    ensures BareSince(commands, id, |commands| - 1) <==> StartsBare(commands, id, |commands| - 1)
  {
  }

  lemma BareOneMore(commands: seq<Command>, rest: seq<Command>, id: nat)
    requires commands != [] && rest == commands[..|commands| - 1] && RunsAfter(commands, id, |commands|)
    ensures (exists n | 0 <= n < |commands| :: BareSince(commands, id, n))
            <==> StartsBare(commands, id, |commands| - 1)
                 || exists n | 0 <= n < |rest| :: BareSince(rest, id, n)
  {
    var last := |commands| - 1;
    forall n | 0 <= n < last ensures BareSince(rest, id, n) <==> BareSince(commands, id, n) {
      BareBefore(commands, id, n);
    }
    BareAtLast(commands, id);
  }

  /** Main result: a running task has no running attempt exactly when it last
      began to run by an insert or a completion, and has been running since. */
  lemma {:induction false} RunningBare(commands: seq<Command>, id: nat)
    ensures RunsWithoutAttempt(Run(EMPTY, commands), id)
            <==> exists n | 0 <= n < |commands| :: BareSince(commands, id, n)
  {
    if commands == [] {
    } else {
      var rest := commands[..|commands| - 1];
      RunningBare(rest, id);
      LastStep(commands, id);
      if RunsAfter(commands, id, |commands|) {
        BareOneMore(commands, rest, id);
      }
    }
  }

  // How often a task begins to run

  /** The steps of the run in which the task begins to run. */
  function Entries(commands: seq<Command>, id: nat): nat {
    if commands == [] then 0
    else
      var n := |commands| - 1;
      Entries(commands[..n], id) + if !RunsAfter(commands, id, n) && RunsAfter(commands, id, n + 1) then 1 else 0
  }

  function BareEntries(commands: seq<Command>, id: nat): nat {
    if commands == [] then 0
    else
      var n := |commands| - 1;
      BareEntries(commands[..n], id) + if StartsBare(commands, id, n) then 1 else 0
  }

  /** Every time a task begins to run is an attempt of it or a bare entry. */
  lemma {:induction false} EntriesCounted(commands: seq<Command>, id: nat)
    ensures Entries(commands, id) == AttemptCount(Run(EMPTY, commands).attempts, id) + BareEntries(commands, id)
  {
    if commands == [] {
    } else {
      EntriesCounted(commands[..|commands| - 1], id);
      LastStep(commands, id);
    }
  }

  /** No completion names queued or running as the final status. */
  predicate NoRevival(commands: seq<Command>) {
    forall c <- commands | c.CompleteTask? :: !c.final.Queued? && !c.final.Running?
  }

  lemma HasTaskStays(db: Db, c: Command, id: nat)
    requires Coupled(db) && HasTask(db.tasks, id)
    ensures HasTask(Step(db, c).db.tasks, id)
  {
    var k :| 0 <= k < |db.tasks| && db.tasks[k].id == id;
    StepLoad(db, c, k);
    assert Step(db, c).db.tasks[k].id == id;
  }

  /** Without such completions only the insert of a task can begin it bare. */
  lemma BareIsInsert(db: Db, c: Command, id: nat)
    requires Coupled(db) && RunsBare(db, c, id) && (c.CompleteTask? ==> !c.final.Running?)
    ensures !HasTask(db.tasks, id) && HasTask(Step(db, c).db.tasks, id)
  {
    StepEnters(db, c, id);
  }

  lemma {:induction false} OneBareEntry(commands: seq<Command>, id: nat)
    requires NoRevival(commands)
    ensures BareEntries(commands, id) <= if HasTask(Run(EMPTY, commands).tasks, id) then 1 else 0
  {
    if commands == [] {
    } else {
      var rest, c := commands[..|commands| - 1], commands[|commands| - 1];
      assert c in commands && forall d <- rest :: d in commands;
      OneBareEntry(rest, id);
      ReachableCoupled(rest);
      if StartsBare(commands, id, |rest|) {
        BareIsInsert(Run(EMPTY, rest), c, id);
      } else if HasTask(Run(EMPTY, rest).tasks, id) {
        HasTaskStays(Run(EMPTY, rest), c, id);
      }
    }
  }

  /** A row that has just come in is about to start or has begun bare, not both. */
  lemma NewRowLoad(db: Db, c: Command, k: nat)
    requires Coupled(db) && |db.tasks| <= k < |Step(db, c).db.tasks|
    ensures var next := Step(db, c).db;
            Load(next.attempts, next.tasks[k]) + (if RunsBare(db, c, next.tasks[k].id) then 1 else 0) <= 1
    ensures !HasTask(db.tasks, Step(db, c).db.tasks[k].id)
  {
    var e := TaskEffectOf(db, c);
    StepNewTask(db, c, k);
    StepHasEffect(db, c);
    BareGuards(db, c, Step(db, c).db.tasks[k].id);
    if e.Started? {
      StartRowsSize(db, e.rows);
    }
  }

  lemma {:induction false} LoadBounded(commands: seq<Command>, k: nat)
    requires NoRevival(commands)
    requires var db := Run(EMPTY, commands); k < |db.tasks| && db.tasks[k].budget.Some?
    ensures var db := Run(EMPTY, commands);
            var task := db.tasks[k];
            Load(db.attempts, task) + BareEntries(commands, task.id) <= 1 + Max(0, task.budget.value)
  {
    var rest, c := commands[..|commands| - 1], commands[|commands| - 1];
    var db, next := Run(EMPTY, rest), Run(EMPTY, commands);
    assert c in commands && forall d <- rest :: d in commands;
    ReachableCoupled(rest);
    OneBareEntry(rest, next.tasks[k].id);
    if k < |db.tasks| {
      StepLoad(db, c, k);
      LoadBounded(rest, k);
      if StartsBare(commands, db.tasks[k].id, |rest|) {
        BareIsInsert(db, c, db.tasks[k].id);
      }
    } else {
      NewRowLoad(db, c, k);
    }
  }

  /** Main result: over every run in which no completion names queued or running,
      a task with budget b begins to run at most b + 1 times, whoever starts it. */
  lemma EntriesBounded(commands: seq<Command>, k: nat)
    requires NoRevival(commands)
    requires var db := Run(EMPTY, commands); k < |db.tasks| && db.tasks[k].budget.Some?
    ensures var task := Run(EMPTY, commands).tasks[k];
            Entries(commands, task.id) <= 1 + Max(0, task.budget.value)
  {
    LoadBounded(commands, k);
    EntriesCounted(commands, Run(EMPTY, commands).tasks[k].id);
  }
}
