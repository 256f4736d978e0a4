/** Which tasks a round starts: told from the rows of tasks, nodes, loops and
    cycles. */
module ScopeLaw {
  import opened Text
  import opened ControlPlane
  import opened CommandSpec
  import opened Attempts
  import opened ExactlyOnce
  import opened StepEvents
  import opened DispatchLaw
  import opened DispatchReports
  import opened RowLaws

  /** The task's node is under the objective of the cycle's loop. */
  predicate OfCycle(db: Db, t: TaskRow, cycle: nat) {
    exists i, j, k |
      && 0 <= i < |db.nodes| && 0 <= j < |db.cycles| && 0 <= k < |db.loops|
      && db.nodes[i].id == t.node && db.cycles[j].id == cycle && db.loops[k].id == db.cycles[j].loopId ::
      db.nodes[i].objective == db.loops[k].objective
  }

  /** A queued task, of the cycle if the round names one. */
  predicate Candidate(db: Db, t: TaskRow, scope: Option<nat>) {
    t.status == TaskStatus.Queued && (scope.Some? ==> OfCycle(db, t, scope.value))
  }

  lemma ScopeGivesPlaces(db: Db, t: TaskRow, cycle: nat)
    requires InScope(db, t, Some(cycle))
    ensures OfCycle(db, t, cycle)
  {
    var n, l, c :| n in db.nodes && l in db.loops && c in db.cycles
      && n.id == t.node && l.objective == n.objective && c.loopId == l.id && c.id == cycle;
    var i :| 0 <= i < |db.nodes| && db.nodes[i] == n;
    var j :| 0 <= j < |db.cycles| && db.cycles[j] == c;
    var k :| 0 <= k < |db.loops| && db.loops[k] == l;
    assert db.nodes[i].objective == db.loops[k].objective;
  }

  lemma PlacesGiveScope(db: Db, t: TaskRow, cycle: nat, i: nat, j: nat, k: nat)
    requires i < |db.nodes| && j < |db.cycles| && k < |db.loops|
    requires db.nodes[i].id == t.node && db.cycles[j].id == cycle && db.loops[k].id == db.cycles[j].loopId
    requires db.nodes[i].objective == db.loops[k].objective
    ensures InScope(db, t, Some(cycle))
  {
    assert db.nodes[i] in db.nodes && db.cycles[j] in db.cycles && db.loops[k] in db.loops;
  }

  lemma ScopeIsOfCycle(db: Db, t: TaskRow, cycle: nat)
    ensures InScope(db, t, Some(cycle)) <==> OfCycle(db, t, cycle)
  {
    if InScope(db, t, Some(cycle)) {
      ScopeGivesPlaces(db, t, cycle);
    } else if OfCycle(db, t, cycle) {
      var i, j, k :| 0 <= i < |db.nodes| && 0 <= j < |db.cycles| && 0 <= k < |db.loops|
        && db.nodes[i].id == t.node && db.cycles[j].id == cycle && db.loops[k].id == db.cycles[j].loopId
        && db.nodes[i].objective == db.loops[k].objective;
      PlacesGiveScope(db, t, cycle, i, j, k);
    }
  }

  lemma CandidateIsEligible(db: Db, t: TaskRow, scope: Option<nat>)
    ensures Candidate(db, t, scope) <==> Eligible(db, t, scope)
  {
    if scope.Some? {
      ScopeIsOfCycle(db, t, scope.value);
    }
  }

  /** The candidates among the first `n` task rows. */
  function Older(db: Db, scope: Option<nat>, n: nat): nat
    requires n <= |db.tasks|
  {
    if n == 0 then 0 else Older(db, scope, n - 1) + if Candidate(db, db.tasks[n - 1], scope) then 1 else 0
  }

  lemma {:induction false} OlderAreRows(db: Db, scope: Option<nat>, n: nat)
    requires n <= |db.tasks|
    ensures |QueuedRows(db, db.tasks[..n], scope)| == Older(db, scope, n)
  {
    if n == 0 {
    } else {
      assert db.tasks[..n][..n - 1] == db.tasks[..n - 1];
      OlderAreRows(db, scope, n - 1);
      CandidateIsEligible(db, db.tasks[n - 1], scope);
    }
  }

  /** A candidate stands in the query's answer after the older ones. */
  lemma {:induction false} PlaceInRows(db: Db, scope: Option<nat>, k: nat, n: nat)
    requires k < n <= |db.tasks| && Candidate(db, db.tasks[k], scope)
    ensures var rows := QueuedRows(db, db.tasks[..n], scope);
            Older(db, scope, k) < |rows| && rows[Older(db, scope, k)] == db.tasks[k]
  {
    assert db.tasks[..n][..n - 1] == db.tasks[..n - 1];
    CandidateIsEligible(db, db.tasks[n - 1], scope);
    if k == n - 1 {
      OlderAreRows(db, scope, k);
    } else {
      PlaceInRows(db, scope, k, n - 1);
    }
  }

  lemma TakenExactly(db: Db, scope: Option<nat>, max: nat, k: nat)
    requires IdsIncrease(db.tasks) && k < |db.tasks|
    ensures db.tasks[k] in Limit(QueuedRows(db, db.tasks, scope), max)
            <==> Candidate(db, db.tasks[k], scope) && Older(db, scope, k) < max
  {
    var eligible := QueuedRows(db, db.tasks, scope);
    assert db.tasks[..|db.tasks|] == db.tasks;
    CandidateIsEligible(db, db.tasks[k], scope);
    if Candidate(db, db.tasks[k], scope) {
      PlaceInRows(db, scope, k, |db.tasks|);
      QueryIsComplete(db, db.tasks, scope);
      TakenByPlace(eligible, max, Older(db, scope, k));
    } else {
      assert forall t <- Limit(eligible, max) :: t in eligible;
    }
  }

  lemma TakenByPlace(rows: seq<TaskRow>, max: nat, p: nat)
    requires IdsIncrease(rows) && p < |rows|
    ensures rows[p] in Limit(rows, max) <==> p < max
  {
    var taken := Limit(rows, max);
    if rows[p] in taken {
      var i :| 0 <= i < |taken| && taken[i] == rows[p];
      assert rows[i].id == rows[p].id;
    }
    assert p < max ==> p < |taken| && taken[p] == rows[p];
  }

  /** The rows of tasks after a round, each told from the rows before it. */
  ghost predicate StartsCandidates(db: Db, scope: Option<nat>, max: nat, after: seq<TaskRow>) {
    && |after| == |db.tasks|
    && forall k | 0 <= k < |db.tasks| ::
         after[k] == if Candidate(db, db.tasks[k], scope) && Older(db, scope, k) < max
                     then db.tasks[k].(status := TaskStatus.Running) else db.tasks[k]
  }

  lemma RoundStarts(db: Db, scope: Option<nat>, max: nat, after: seq<TaskRow>)
    requires IdsIncrease(db.tasks) && RoundTasks(db.tasks, Limit(QueuedRows(db, db.tasks, scope), max), after)
    ensures StartsCandidates(db, scope, max, after)
  {
    forall k | 0 <= k < |db.tasks|
      ensures after[k] == if Candidate(db, db.tasks[k], scope) && Older(db, scope, k) < max
                          then db.tasks[k].(status := TaskStatus.Running) else db.tasks[k]
    {
      TakenExactly(db, scope, max, k);
    }
  }

  /** How many tasks the round starts. */
  function Starts(db: Db, scope: Option<nat>, max: nat): nat {
    if Older(db, scope, |db.tasks|) < max then Older(db, scope, |db.tasks|) else max
  }

  /** The last event is the round's own. */
  ghost predicate ClosesWith(journal: seq<Event>, key: string, payload: Payload) {
    && journal != [] && journal[|journal| - 1].kind == DispatchKind
    && journal[|journal| - 1].key == key && journal[|journal| - 1].payload == payload
  }

  lemma StartsAre(db: Db, scope: Option<nat>, max: nat)
    requires Coupled(db)
    ensures |StartRows(db, Limit(QueuedRows(db, db.tasks, scope), max)).eventIds| == Starts(db, scope, max)
  {
    OldestFirst(db, scope, max);
    RoundHasEffect(db, Limit(QueuedRows(db, db.tasks, scope), max));
    OlderAreRows(db, scope, |db.tasks|);
    assert db.tasks[..|db.tasks|] == db.tasks;
  }

  lemma KeyStaysFree(db: Db, key: string, scope: Option<nat>, max: nat)
    requires !Consumed(db.journal, DispatchKind, key)
    ensures !Consumed(StartRows(db, Limit(QueuedRows(db, db.tasks, scope), max)).db.journal, DispatchKind, key)
  {
    RoundJournal(db, DispatchRound(key, scope, max));
    FreshRows(db, DispatchRound(key, scope, max));
  }

  lemma RoundCloses(db: Db, key: string, scope: Option<nat>, max: nat)
    requires Coupled(db) && !Consumed(db.journal, DispatchKind, key)
    ensures ClosesWith(RunRound(db, key, scope, max).db.journal, key,
                       RoundCompleted(Starts(db, scope, max), scope, max))
  {
    KeyStaysFree(db, key, scope, max);
    StartsAre(db, scope, max);
    ReplyOf(db, key, scope, max, Limit(QueuedRows(db, db.tasks, scope), max));
  }

  lemma RoundReplies(db: Db, key: string, scope: Option<nat>, max: nat)
    requires Coupled(db)
    ensures var reply := RunRound(db, key, scope, max);
            && StartsCandidates(db, scope, max, reply.db.tasks)
            && reply.outcome.Accepted? && !reply.outcome.idempotentSkip
            && (reply.outcome.applied <==> Starts(db, scope, max) > 0)
  {
    RoundLaw(db, key, scope, max);
    OlderAreRows(db, scope, |db.tasks|);
    assert db.tasks[..|db.tasks|] == db.tasks;
    RoundStarts(db, scope, max, RunRound(db, key, scope, max).db.tasks);
  }

  /** Main result: a round starts a task exactly when it is queued, its node is
      under the objective of the named cycle's loop, and fewer than `max` such
      tasks are older; it closes with one event that says how many it started. */
  lemma ScopedRoundLaw(db: Db, key: string, scope: Option<nat>, max: nat)
    requires Coupled(db) && !Used(db.journal, DispatchKind, key)
    ensures var reply := Step(db, DispatchRound(key, scope, max));
            && StartsCandidates(db, scope, max, reply.db.tasks)
            && reply.outcome.Accepted? && !reply.outcome.idempotentSkip
            && (reply.outcome.applied <==> Starts(db, scope, max) > 0)
            && ClosesWith(reply.db.journal, key, RoundCompleted(Starts(db, scope, max), scope, max))
  {
    UsedIsConsumed(db.journal, DispatchKind, key);
    FreshRound(db, key, scope, max);
    RoundReplies(db, key, scope, max);
    RoundCloses(db, key, scope, max);
  }

  lemma UsedRoundSkips(db: Db, key: string, scope: Option<nat>, max: nat)
    requires Used(db.journal, DispatchKind, key)
    ensures Step(db, DispatchRound(key, scope, max)) == Reply(db, Accepted(false, true, []))
  {
    UsedIsConsumed(db.journal, DispatchKind, key);
  }

  lemma QueuedRow(tasks: seq<TaskRow>, id: nat)
    ensures HasQueued(tasks, id) <==> exists t <- tasks :: t.id == id && t.status == TaskStatus.Queued
  {
    if HasQueued(tasks, id) {
      var q :| 0 <= q < |tasks| && tasks[q].id == id && tasks[q].status == TaskStatus.Queued;
      assert tasks[q] in tasks;
    }
  }

  lemma EventGoesInOnce(db: Db, kind: AggregateKind, aggregate: nat, key: string, payload: Payload)
    ensures var e := Event(db.next, kind, aggregate, key, payload);
            AppendEvent(db, kind, aggregate, key, payload) ==
            db.(journal := db.journal + (if HasRow(db.journal, e) then [] else [e]), next := db.next + 1)
  {
    RowConflicts(db.journal, Event(db.next, kind, aggregate, key, payload));
    assert db.journal + [] == db.journal;
  }

  lemma StartAsStated(db: Db, row: TaskRow, index: int, key: string)
    requires HasQueued(db.tasks, row.id) && NextIndex(db.attempts, row.id) == index && key == DispatchKey(row.id)
    ensures var next := StartRow(db, row).db;
            var e := Event(db.next + 1, TaskKind, row.id, key, TaskDispatched(db.next, index));
            && next.tasks == StartTask(db.tasks, row.id)
            && next.nodes ==
               MoveNodes(db.nodes, [row.node], {Proposed, NodeLifecycle.Queued}, NodeLifecycle.Running)
            && next == db.(
                 tasks := next.tasks, nodes := next.nodes,
                 attempts := db.attempts + [AttemptRow(db.next, row.id, index, TaskStatus.Running, false)],
                 journal := db.journal + (if HasRow(db.journal, e) then [] else [e]), next := db.next + 2)
  {
    var started := db.(
      tasks := StartTask(db.tasks, row.id),
      attempts := db.attempts + [AttemptRow(db.next, row.id, index, TaskStatus.Running, false)],
      nodes := MoveNodes(db.nodes, [row.node], {Proposed, NodeLifecycle.Queued}, NodeLifecycle.Running),
      next := db.next + 1);
    EventGoesInOnce(started, TaskKind, row.id, key, TaskDispatched(db.next, index));
  }

  /** One started row: its attempt, its node, and its event unless there is one
      under the same key already. */
  lemma StartLaw(db: Db, row: TaskRow)
    requires Numbered(db.attempts) && exists t <- db.tasks :: t.id == row.id && t.status == TaskStatus.Queued
    ensures var next := StartRow(db, row).db;
            var index := AttemptsOf(db.attempts, row.id) + 1;
            var e := Event(db.next + 1, TaskKind, row.id, "dispatch-" + Decimal(row.id),
                           TaskDispatched(db.next, index));
            && Rewritten(db.tasks, next.tasks, (t: TaskRow) =>
                 if t.id == row.id && t.status == TaskStatus.Queued then t.(status := TaskStatus.Running) else t)
            && Rewritten(db.nodes, next.nodes, (n: NodeRow) =>
                 if n.id == row.node && (n.lifecycle == Proposed || n.lifecycle == NodeLifecycle.Queued)
                 then n.(lifecycle := NodeLifecycle.Running) else n)
            && next == db.(
                 tasks := next.tasks, nodes := next.nodes,
                 attempts := db.attempts + [AttemptRow(db.next, row.id, index, TaskStatus.Running, false)],
                 journal := db.journal + (if HasRow(db.journal, e) then [] else [e]), next := db.next + 2)
  {
    MaxIsCount(db.attempts, row.id);
    AttemptsAreCounted(db.attempts, row.id);
    QueuedRow(db.tasks, row.id);
    StartAsStated(db, row, AttemptsOf(db.attempts, row.id) + 1, DispatchKey(row.id));
  }
}
