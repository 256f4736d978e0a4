/** What one dispatch round does to the whole store. */
module DispatchLaw {
  import opened Text
  import opened ControlPlane
  import opened CommandSpec
  import opened Attempts

  ghost predicate IdsIncrease(rows: seq<TaskRow>) {
    forall i, j :: 0 <= i < j < |rows| ==> rows[i].id < rows[j].id
  }

  /** Queued rows of the table, oldest first. */
  ghost predicate Dispatchable(db: Db, rows: seq<TaskRow>) {
    IdsIncrease(rows) && forall t <- rows :: t in db.tasks && t.status == TaskStatus.Queued
  }

  /** The query returns every eligible row once, in creation order. */
  lemma {:induction false} QueryIsComplete(db: Db, tasks: seq<TaskRow>, scope: Option<nat>)
    requires IdsIncrease(tasks)
    ensures IdsIncrease(QueuedRows(db, tasks, scope))
    ensures forall t <- tasks :: Eligible(db, t, scope) ==> t in QueuedRows(db, tasks, scope)
  {
    if tasks == [] {
    } else {
      var rest, last := tasks[..|tasks| - 1], tasks[|tasks| - 1];
      QueryIsComplete(db, rest, scope);
      var r := QueuedRows(db, rest, scope);
      forall t <- r ensures t.id < last.id {
        assert t in rest;
      }
      assert forall t <- tasks :: t in rest || t == last;
    }
  }

  predicate Proceeds(n: NodeRow, rows: seq<TaskRow>) {
    (exists t <- rows :: t.node == n.id) && (n.lifecycle.Proposed? || n.lifecycle == NodeLifecycle.Queued)
  }

  // The closed form of a round over `rows`, table by table.

  ghost predicate RoundTasks(tasks: seq<TaskRow>, rows: seq<TaskRow>, after: seq<TaskRow>) {
    && |after| == |tasks|
    && forall k | 0 <= k < |tasks| ::
         after[k] == if tasks[k] in rows then tasks[k].(status := TaskStatus.Running) else tasks[k]
  }

  /** `a` is the next attempt of `task`, and it is running. */
  ghost predicate StartedFor(attempts: seq<AttemptRow>, task: TaskRow, a: AttemptRow) {
    && a.task == task.id && a.status == TaskStatus.Running && !a.finished
    && a.index == AttemptCount(attempts, task.id) + 1
  }

  ghost predicate RoundAttempts(attempts: seq<AttemptRow>, rows: seq<TaskRow>, after: seq<AttemptRow>) {
    && |after| == |attempts| + |rows| && attempts <= after
    && forall i | 0 <= i < |rows| :: StartedFor(attempts, rows[i], after[|attempts| + i])
  }

  ghost predicate RoundNodes(nodes: seq<NodeRow>, rows: seq<TaskRow>, after: seq<NodeRow>) {
    && |after| == |nodes|
    && forall k | 0 <= k < |nodes| ::
         after[k] == if Proceeds(nodes[k], rows) then nodes[k].(lifecycle := NodeLifecycle.Running) else nodes[k]
  }

  ghost predicate RoundEffect(db: Db, rows: seq<TaskRow>, r: Round) {
    && |r.eventIds| == |rows|
    && RoundTasks(db.tasks, rows, r.db.tasks)
    && RoundAttempts(db.attempts, rows, r.db.attempts)
    && RoundNodes(db.nodes, rows, r.db.nodes)
    && r.db.objectives == db.objectives && r.db.loops == db.loops && r.db.cycles == db.cycles
  }

  lemma {:induction false} CountWithoutNew(attempts: seq<AttemptRow>, more: seq<AttemptRow>, task: nat)
    requires forall a <- more :: a.task != task
    ensures AttemptCount(attempts + more, task) == AttemptCount(attempts, task)
  {
    if more == [] {
      assert attempts + more == attempts;
    } else {
      assert (attempts + more)[..|attempts + more| - 1] == attempts + more[..|more| - 1];
      CountWithoutNew(attempts, more[..|more| - 1], task);
    }
  }

  lemma LastIsNewest(rows: seq<TaskRow>, row: TaskRow)
    requires IdsIncrease(rows + [row])
    ensures forall t <- rows :: t.id < row.id
  {
    forall t <- rows ensures t.id < row.id {
      var i :| 0 <= i < |rows| && rows[i] == t;
      assert (rows + [row])[i] == t && (rows + [row])[|rows|] == row;
    }
  }

  /** The next row's task is still queued when its turn comes. */
  lemma StillQueued(tasks: seq<TaskRow>, rows: seq<TaskRow>, row: TaskRow, before: seq<TaskRow>)
    requires RoundTasks(tasks, rows, before) && row in tasks && row.status == TaskStatus.Queued
    requires forall t <- rows :: t.id < row.id
    ensures HasQueued(before, row.id)
  {
    var q :| 0 <= q < |tasks| && tasks[q] == row;
    assert before[q] == row;
  }

  lemma TasksExtendRound(tasks: seq<TaskRow>, rows: seq<TaskRow>, row: TaskRow, before: seq<TaskRow>)
    requires IdsIncrease(tasks) && RoundTasks(tasks, rows, before)
    requires row in tasks && row.status == TaskStatus.Queued && forall t <- rows :: t.id < row.id
    ensures RoundTasks(tasks, rows + [row], StartTask(before, row.id))
  {
    var q :| 0 <= q < |tasks| && tasks[q] == row;
    forall k | 0 <= k < |tasks| ensures tasks[k] in rows + [row] <==> tasks[k] in rows || k == q {
      assert tasks[k] == row ==> k == q;
    }
  }

  lemma AttemptsExtendRound(attempts: seq<AttemptRow>, rows: seq<TaskRow>, row: TaskRow, before: seq<AttemptRow>,
                            a: AttemptRow)
    requires RoundAttempts(attempts, rows, before) && Numbered(before)
    requires forall t <- rows :: t.id < row.id
    requires a.task == row.id && a.status == TaskStatus.Running && !a.finished
    requires a.index == NextIndex(before, row.id)
    ensures RoundAttempts(attempts, rows + [row], before + [a])
  {
    var more := before[|attempts|..];
    assert before == attempts + more;
    forall m <- more ensures m.task != row.id {
      var i :| 0 <= i < |more| && more[i] == m;
      assert before[|attempts| + i] == m && StartedFor(attempts, rows[i], m);
    }
    CountWithoutNew(attempts, more, row.id);
    MaxIsCount(before, row.id);
  }

  lemma NodesExtendRound(nodes: seq<NodeRow>, rows: seq<TaskRow>, row: TaskRow, before: seq<NodeRow>)
    requires RoundNodes(nodes, rows, before)
    ensures RoundNodes(nodes, rows + [row],
                       MoveNodes(before, [row.node], {Proposed, NodeLifecycle.Queued}, NodeLifecycle.Running))
  {
    forall k | 0 <= k < |nodes|
      ensures (exists t <- rows + [row] :: t.node == nodes[k].id)
              <==> (exists t <- rows :: t.node == nodes[k].id) || row.node == nodes[k].id
    {
      assert row in rows + [row];
      assert forall t <- rows :: t in rows + [row];
    }
  }

  lemma RowExtendsRound(db: Db, rows: seq<TaskRow>, row: TaskRow, before: Round)
    requires IdsIncrease(db.tasks) && Numbered(before.db.attempts) && RoundEffect(db, rows, before)
    requires row in db.tasks && row.status == TaskStatus.Queued && forall t <- rows :: t.id < row.id
    ensures HasQueued(before.db.tasks, row.id)
    ensures var last := StartRow(before.db, row);
            RoundEffect(db, rows + [row], Round(last.db, before.eventIds + last.eventIds))
  {
    StillQueued(db.tasks, rows, row, before.db.tasks);
    var last := StartRow(before.db, row);
    TasksExtendRound(db.tasks, rows, row, before.db.tasks);
    AttemptsExtendRound(db.attempts, rows, row, before.db.attempts, last.db.attempts[|before.db.attempts|]);
    NodesExtendRound(db.nodes, rows, row, before.db.nodes);
  }

  lemma RestDispatchable(db: Db, rest: seq<TaskRow>, row: TaskRow)
    requires Dispatchable(db, rest + [row])
    ensures Dispatchable(db, rest) && row in db.tasks && row.status == TaskStatus.Queued
    ensures forall t <- rest :: t.id < row.id
  {
    assert row in rest + [row] && forall t <- rest :: t in rest + [row];
    assert forall i | 0 <= i < |rest| :: (rest + [row])[i] == rest[i];
    LastIsNewest(rest, row);
  }

  lemma NothingStarted(db: Db)
    ensures RoundEffect(db, [], StartRows(db, []))
  {
  }

  lemma {:induction false} RoundHasEffect(db: Db, rows: seq<TaskRow>)
    requires Coupled(db) && Dispatchable(db, rows)
    ensures RoundEffect(db, rows, StartRows(db, rows))
  {
    if rows == [] {
      NothingStarted(db);
    } else {
      var rest, row := rows[..|rows| - 1], rows[|rows| - 1];
      assert rows == rest + [row];
      RestDispatchable(db, rest, row);
      RoundHasEffect(db, rest);
      StartRowsKeepCoupling(db, rest);
      RowExtendsRound(db, rest, row, StartRows(db, rest));
    }
  }

  lemma LimitTakesOldest(eligible: seq<TaskRow>, max: nat)
    requires IdsIncrease(eligible)
    ensures forall t <- Limit(eligible, max) :: t in eligible
    ensures forall t <- eligible, s <- Limit(eligible, max) | t !in Limit(eligible, max) :: s.id < t.id
  {
    var rows := Limit(eligible, max);
    forall i, j | 0 <= i < |eligible| && 0 <= j < |rows| && eligible[i] !in rows
      ensures rows[j].id < eligible[i].id
    {
      assert forall k :: 0 <= k < |rows| ==> eligible[k] in rows;
    }
  }

  /** The rows a round takes are the oldest of the eligible ones. */
  lemma OldestFirst(db: Db, scope: Option<nat>, max: nat)
    requires IdsIncrease(db.tasks)
    ensures var eligible := QueuedRows(db, db.tasks, scope);
            var rows := Limit(eligible, max);
            && (forall t <- db.tasks :: Eligible(db, t, scope) <==> t in eligible)
            && |rows| == (if max < |eligible| then max else |eligible|)
            && Dispatchable(db, rows)
            && (forall t <- eligible, s <- rows | t !in rows :: s.id < t.id)
  {
    var eligible := QueuedRows(db, db.tasks, scope);
    var rows := Limit(eligible, max);
    QueryIsComplete(db, db.tasks, scope);
    LimitTakesOldest(eligible, max);
  }

  /** Main result. A round starts the oldest `max` eligible tasks, or all of
      them if there are fewer; each gains its next attempt; nothing else about
      any task changes; and it reports one event id per start plus its own. */
  lemma RoundLaw(db: Db, key: string, scope: Option<nat>, max: nat)
    requires Coupled(db)
    ensures var eligible := QueuedRows(db, db.tasks, scope);
            var rows, reply := Limit(eligible, max), RunRound(db, key, scope, max);
            && (forall t <- db.tasks :: Eligible(db, t, scope) <==> t in eligible)
            && |rows| == (if max < |eligible| then max else |eligible|)
            && (forall t <- eligible, s <- rows | t !in rows :: s.id < t.id)
            && RoundTasks(db.tasks, rows, reply.db.tasks)
            && RoundAttempts(db.attempts, rows, reply.db.attempts)
            && RoundNodes(db.nodes, rows, reply.db.nodes)
            && reply.outcome.Accepted?
            && |reply.outcome.eventIds| == |rows| + 1
            && (reply.outcome.applied <==> rows != [])
  {
    OldestFirst(db, scope, max);
    RoundHasEffect(db, Limit(QueuedRows(db, db.tasks, scope), max));
  }
}
