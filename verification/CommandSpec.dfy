/** What each command does to the tables, as functions on table values. */
module CommandSpec {
  import opened Text
  import opened ControlPlane

  // SELECT

  function Select<T>(rows: seq<T>, idOf: T -> nat, id: nat): (r: Option<T>)
    ensures r.Some? ==> r.value in rows && idOf(r.value) == id
    ensures r.None? ==> forall t <- rows :: idOf(t) != id
  {
    if rows == [] then None
    else if idOf(rows[0]) == id then Some(rows[0])
    else Select(rows[1..], idOf, id)
  }

  predicate Consumed(journal: seq<Event>, kind: AggregateKind, key: string) {
    exists i :: 0 <= i < |journal| && journal[i].kind == kind && journal[i].key == key
  }

  function AttemptCount(attempts: seq<AttemptRow>, task: nat): nat {
    if attempts == [] then 0
    else AttemptCount(attempts[..|attempts| - 1], task) + if attempts[|attempts| - 1].task == task then 1 else 0
  }

  function Max(a: int, b: int): int {
    if a < b then b else a
  }

  /** `SELECT MAX(attempt_index)`: no value when the task has no attempts. */
  function MaxIndex(attempts: seq<AttemptRow>, task: nat): Option<int> {
    if attempts == [] then None
    else
      var last := attempts[|attempts| - 1];
      var rest := MaxIndex(attempts[..|attempts| - 1], task);
      if last.task != task then rest
      else if rest.None? then Some(last.index)
      else Some(Max(rest.value, last.index))
  }

  predicate InScope(db: Db, task: TaskRow, cycle: Option<nat>) {
    cycle.None? || exists n, l, c | n in db.nodes && l in db.loops && c in db.cycles ::
      n.id == task.node && l.objective == n.objective && c.loopId == l.id && c.id == cycle.value
  }

  predicate Eligible(db: Db, task: TaskRow, cycle: Option<nat>) {
    task.status == TaskStatus.Queued && InScope(db, task, cycle)
  }

  /** Eligible rows of `tasks`, oldest first. */
  function QueuedRows(db: Db, tasks: seq<TaskRow>, cycle: Option<nat>): (r: seq<TaskRow>)
    ensures forall t <- r :: t in tasks && Eligible(db, t, cycle)
  {
    if tasks == [] then []
    else
      var rest := QueuedRows(db, tasks[..|tasks| - 1], cycle);
      var last := tasks[|tasks| - 1];
      if Eligible(db, last, cycle) then rest + [last] else rest
  }

  function Limit<T>(rows: seq<T>, n: nat): seq<T> {
    if |rows| <= n then rows else rows[..n]
  }

  // UPDATE

  function SetTask(tasks: seq<TaskRow>, id: nat, status: TaskStatus): (r: seq<TaskRow>)
    ensures |r| == |tasks|
    ensures forall i | 0 <= i < |r| ::
      r[i] == if tasks[i].id == id then tasks[i].(status := status) else tasks[i]
  {
    seq(|tasks|, i requires 0 <= i < |tasks| =>
      if tasks[i].id == id then tasks[i].(status := status) else tasks[i])
  }

  /** `UPDATE tasks SET status = 'running' WHERE task_id = id AND status = 'queued'`. */
  function StartTask(tasks: seq<TaskRow>, id: nat): (r: seq<TaskRow>)
    ensures |r| == |tasks|
    ensures forall i | 0 <= i < |r| ::
      r[i] == if tasks[i].id == id && tasks[i].status == TaskStatus.Queued
              then tasks[i].(status := TaskStatus.Running) else tasks[i]
  {
    seq(|tasks|, i requires 0 <= i < |tasks| =>
      if tasks[i].id == id && tasks[i].status == TaskStatus.Queued
      then tasks[i].(status := TaskStatus.Running) else tasks[i])
  }

  predicate HasQueued(tasks: seq<TaskRow>, id: nat) {
    exists i :: 0 <= i < |tasks| && tasks[i].id == id && tasks[i].status == TaskStatus.Queued
  }

  /** Running attempts of the task end with `status`. */
  function FinishAttempts(attempts: seq<AttemptRow>, task: nat, status: TaskStatus): (r: seq<AttemptRow>)
    ensures |r| == |attempts|
    ensures forall i | 0 <= i < |r| ::
      r[i] == if attempts[i].task == task && attempts[i].status == TaskStatus.Running
              then attempts[i].(status := status, finished := true) else attempts[i]
  {
    seq(|attempts|, i requires 0 <= i < |attempts| =>
      if attempts[i].task == task && attempts[i].status == TaskStatus.Running
      then attempts[i].(status := status, finished := true) else attempts[i])
  }

  /** Nodes in `ids` whose lifecycle is in `from` move to `to`. */
  function MoveNodes(nodes: seq<NodeRow>, ids: seq<nat>, from: set<NodeLifecycle>, to: NodeLifecycle): (r: seq<NodeRow>)
    ensures |r| == |nodes|
    ensures forall i | 0 <= i < |r| ::
      r[i] == if nodes[i].id in ids && nodes[i].lifecycle in from then nodes[i].(lifecycle := to) else nodes[i]
  {
    seq(|nodes|, i requires 0 <= i < |nodes| =>
      if nodes[i].id in ids && nodes[i].lifecycle in from then nodes[i].(lifecycle := to) else nodes[i])
  }

  function SetNode(nodes: seq<NodeRow>, id: nat, lifecycle: NodeLifecycle): (r: seq<NodeRow>)
    ensures |r| == |nodes|
    ensures forall i | 0 <= i < |r| ::
      r[i] == if nodes[i].id == id then nodes[i].(lifecycle := lifecycle) else nodes[i]
  {
    seq(|nodes|, i requires 0 <= i < |nodes| =>
      if nodes[i].id == id then nodes[i].(lifecycle := lifecycle) else nodes[i])
  }

  function SetLoopIndex(loops: seq<LoopRow>, id: nat, index: I32): (r: seq<LoopRow>)
    ensures |r| == |loops|
    ensures forall i | 0 <= i < |r| ::
      r[i] == if loops[i].id == id then loops[i].(cycleIndex := index) else loops[i]
  {
    seq(|loops|, i requires 0 <= i < |loops| =>
      if loops[i].id == id then loops[i].(cycleIndex := index) else loops[i])
  }

  function MoveCycle(cycles: seq<CycleRow>, id: nat, from: CyclePhase, to: CyclePhase): (r: seq<CycleRow>)
    ensures |r| == |cycles|
    ensures forall i | 0 <= i < |r| ::
      r[i] == if cycles[i].id == id && cycles[i].phase == from then cycles[i].(phase := to) else cycles[i]
  {
    seq(|cycles|, i requires 0 <= i < |cycles| =>
      if cycles[i].id == id && cycles[i].phase == from then cycles[i].(phase := to) else cycles[i])
  }

  // INSERT into the journal

  predicate Conflicts(journal: seq<Event>, e: Event) {
    exists i :: 0 <= i < |journal| &&
      journal[i].kind == e.kind && journal[i].aggregate == e.aggregate && journal[i].key == e.key
  }

  /** ON CONFLICT (aggregate_kind, aggregate_id, idempotency_key) DO NOTHING. */
  function Journaled(journal: seq<Event>, e: Event): seq<Event> {
    if Conflicts(journal, e) then journal else journal + [e]
  }

  /** Takes a fresh event id whether or not the row goes in. */
  function AppendEvent(db: Db, kind: AggregateKind, aggregate: nat, key: string, payload: Payload): (r: Db)
    ensures db.journal <= r.journal
    ensures Consumed(r.journal, kind, key)
  {
    var e := Event(db.next, kind, aggregate, key, payload);
    var j := Journaled(db.journal, e);
    assert Conflicts(db.journal, e) || j[|j| - 1] == e;
    db.(journal := j, next := db.next + 1)
  }

  // One command

  function NewObjective(db: Db, key: string, summary: string, outcome: string, conversation: Option<string>): Reply {
    var id := db.next;
    var inserted := db.(objectives := db.objectives + [ObjectiveRow(id, summary)], next := id + 1);
    Reply(AppendEvent(inserted, ObjectiveKind, id, key, ObjectiveCreated(summary, outcome, conversation)),
          Applied(id + 1))
  }

  function InsertLoop(db: Db, key: string, objective: nat, track: string): Reply {
    var id := db.next;
    var inserted := db.(loops := db.loops + [LoopRow(id, objective, 0, track)], next := id + 1);
    Reply(AppendEvent(inserted, LoopKind, id, key, LoopCreated(objective, track)), Applied(id + 1))
  }

  function NewLoop(db: Db, key: string, objective: nat, track: string): Reply {
    if Select(db.objectives, ObjectiveId, objective).None? then Reply(db, Rejected(EntityNotFound))
    else InsertLoop(db, key, objective, track)
  }

  /** Inserts the cycle in `intake`, bumps its loop and journals both. */
  function OpenCycle(db: Db, key: string, loopId: nat, index: I32, policy: string, previous: Option<nat>): Reply {
    var id := db.next;
    var inserted := db.(
      cycles := db.cycles + [CycleRow(id, loopId, index, Intake, policy)],
      loops := SetLoopIndex(db.loops, loopId, index),
      next := id + 1);
    Reply(AppendEvent(inserted, CycleKind, id, key, CycleCreated(loopId, index, policy, previous)), Applied(id + 1))
  }

  function NewCycle(db: Db, key: string, loopId: nat, index: I32, policy: string): Reply {
    if Select(db.loops, LoopId, loopId).None? then Reply(db, Rejected(EntityNotFound))
    else OpenCycle(db, key, loopId, index, policy, None)
  }

  function NodeStatement(milestone: string, statement: string): string {
    "[milestone:" + milestone + "] " + statement
  }

  function InsertNode(db: Db, objective: nat, milestone: string, title: string, statement: string, lane: NodeLane,
                      lifecycle: NodeLifecycle): Reply
  {
    var id := db.next;
    var row := NodeRow(id, objective, title, NodeStatement(milestone, statement), lane, lifecycle);
    var inserted := db.(nodes := db.nodes + [row], next := id + 1);
    Reply(AppendEvent(inserted, NodeKind, id, BridgeKey(milestone), MilestoneBridged(milestone, objective)),
          Applied(id + 1))
  }

  function BridgeNode(db: Db, objective: nat, milestone: string, title: string, statement: string, lane: NodeLane,
                      lifecycle: NodeLifecycle): Reply
  {
    if Select(db.objectives, ObjectiveId, objective).None? then Reply(db, Rejected(EntityNotFound))
    else InsertNode(db, objective, milestone, title, statement, lane, lifecycle)
  }

  function InsertTask(db: Db, key: string, node: nat, role: string, skill: string, status: TaskStatus,
                      budget: Option<int>): Reply
  {
    var id := db.next;
    var inserted := db.(tasks := db.tasks + [TaskRow(id, node, role, skill, status, budget)], next := id + 1);
    Reply(AppendEvent(inserted, TaskKind, id, key, TaskCreated(node, status)), Applied(id + 1))
  }

  function NewTask(db: Db, key: string, node: nat, role: string, skill: string, status: TaskStatus): Reply {
    if Select(db.nodes, NodeId, node).None? then Reply(db, Rejected(EntityNotFound))
    else InsertTask(db, key, node, role, skill, status, None)
  }

  /** The tick's own insert: status follows from unmet dependencies, and the
      policy's retry budget is stored on the row. */
  function NewAutoTask(db: Db, key: string, node: nat, role: string, skill: string, blocked: bool, budget: int): Reply {
    var status := if blocked then TaskStatus.Queued else TaskStatus.Running;
    var lifecycle := if blocked then NodeLifecycle.Queued else NodeLifecycle.Running;
    InsertTask(db.(nodes := MoveNodes(db.nodes, [node], {Proposed}, lifecycle)),
               key, node, role, skill, status, Some(budget))
  }

  datatype Round = Round(db: Db, eventIds: seq<nat>)

  function NextIndex(attempts: seq<AttemptRow>, task: nat): int {
    var m := MaxIndex(attempts, task);
    if m.None? then 1 else m.value + 1
  }

  /** One row of a dispatch round; a row no longer queued is passed over. */
  function StartRow(db: Db, row: TaskRow): Round {
    if !HasQueued(db.tasks, row.id) then Round(db, [])
    else
      var attempt := AttemptRow(db.next, row.id, NextIndex(db.attempts, row.id), TaskStatus.Running, false);
      var started := db.(
        tasks := StartTask(db.tasks, row.id),
        attempts := db.attempts + [attempt],
        nodes := MoveNodes(db.nodes, [row.node], {Proposed, NodeLifecycle.Queued}, NodeLifecycle.Running),
        next := db.next + 1);
      Round(AppendEvent(started, TaskKind, row.id, DispatchKey(row.id), TaskDispatched(attempt.id, attempt.index)),
            [db.next + 1])
  }

  function StartRows(db: Db, rows: seq<TaskRow>): Round {
    if rows == [] then Round(db, [])
    else
      var before := StartRows(db, rows[..|rows| - 1]);
      var last := StartRow(before.db, rows[|rows| - 1]);
      Round(last.db, before.eventIds + last.eventIds)
  }

  /** The event of the round itself, under an id of its own. */
  function CloseRound(r: Round, key: string, cycle: Option<nat>, max: nat): Reply {
    var n := |r.eventIds|;
    var closing := r.db.(next := r.db.next + 1);
    Reply(AppendEvent(closing, DispatchKind, r.db.next, key, RoundCompleted(n, cycle, max)),
          Accepted(n > 0, false, r.eventIds + [closing.next]))
  }

  function RunRound(db: Db, key: string, cycle: Option<nat>, max: nat): Reply {
    CloseRound(StartRows(db, Limit(QueuedRows(db, db.tasks, cycle), max)), key, cycle, max)
  }

  predicate Terminal(s: TaskStatus) {
    s == TaskStatus.Succeeded || s == TaskStatus.Failed || s == Cancelled
  }

  /** Ends a task: its row, its running attempt, and the journal entry. */
  function Settle(db: Db, key: string, task: TaskRow, status: TaskStatus, attemptStatus: TaskStatus,
                  nodes: seq<NodeRow>, payload: Payload): Reply
  {
    var settled := db.(
      tasks := SetTask(db.tasks, task.id, status),
      attempts := FinishAttempts(db.attempts, task.id, attemptStatus),
      nodes := nodes);
    Reply(AppendEvent(settled, TaskKind, task.id, key, payload), Applied(db.next))
  }

  function Complete(db: Db, key: string, id: nat, final: TaskStatus): Reply {
    var found := Select(db.tasks, TaskId, id);
    if found.None? then Reply(db, Rejected(EntityNotFound))
    else if Terminal(found.value.status) then Reply(db, Rejected(IllegalTransition))
    else
      var lifecycle := if final == TaskStatus.Succeeded then Completed else NodeLifecycle.Failed;
      Settle(db, key, found.value, final, final, SetNode(db.nodes, found.value.node, lifecycle), TaskCompleted(final))
  }

  function RecordFailure(db: Db, key: string, id: nat): Reply {
    var found := Select(db.tasks, TaskId, id);
    if found.None? then Reply(db, Rejected(EntityNotFound))
    else
      Settle(db, key, found.value, TaskStatus.Failed, TaskStatus.Failed,
             SetNode(db.nodes, found.value.node, NodeLifecycle.Failed), TaskFailed)
  }

  function RecordTimeout(db: Db, key: string, id: nat): Reply {
    var found := Select(db.tasks, TaskId, id);
    if found.None? then Reply(db, Rejected(EntityNotFound))
    else if found.value.status != TaskStatus.Running then Reply(db, Rejected(IllegalTransition))
    else Settle(db, key, found.value, TaskStatus.Failed, TimedOut, db.nodes, TaskTimedOut)
  }

  function Requeue(db: Db, key: string, id: nat): Reply {
    var found := Select(db.tasks, TaskId, id);
    if found.None? then Reply(db, Rejected(EntityNotFound))
    else if found.value.status != TaskStatus.Failed then Reply(db, Rejected(IllegalTransition))
    else if found.value.budget.Some? && AttemptCount(db.attempts, id) >= found.value.budget.value then
      Reply(db, Rejected(PreconditionFailed))
    else
      var requeued := db.(
        tasks := SetTask(db.tasks, id, TaskStatus.Queued),
        nodes := SetNode(db.nodes, found.value.node, NodeLifecycle.Queued));
      Reply(AppendEvent(requeued, TaskKind, id, key, RetryScheduled), Applied(db.next))
  }

  function FollowingIndex(loops: seq<LoopRow>, loopId: nat): I32 {
    var l := Select(loops, LoopId, loopId);
    if l.None? then 1 else Succ32(l.value.cycleIndex)
  }

  function GenerateNext(db: Db, key: string, loopId: nat, current: nat, policy: string, carry: seq<nat>): Reply {
    var found := Select(db.cycles, CycleId, current);
    if found.None? then Reply(db, Rejected(EntityNotFound))
    else if found.value.phase != NextCycleReady then Reply(db, Rejected(PreconditionFailed))
    else
      var carried := MoveNodes(db.nodes, carry, {NodeLifecycle.Failed, Completed}, NodeLifecycle.Queued);
      OpenCycle(db.(nodes := carried), key, loopId, FollowingIndex(db.loops, loopId), policy, Some(current))
  }

  predicate AtPhase(cycles: seq<CycleRow>, cycle: nat, phase: CyclePhase) {
    exists c <- cycles :: c.id == cycle && c.phase == phase
  }

  /** The two events of a phase change: the transition and its sidecar record. */
  function Transition(db: Db, cycle: nat, from: CyclePhase, to: CyclePhase): Db {
    var journaled := AppendEvent(db, CycleKind, cycle, PhaseKey(cycle, from, to), PhaseTransitioned(from, to));
    AppendEvent(journaled, SidecarKind, cycle, SidecarKey(cycle, from, to), PhaseRecorded(to, from))
  }

  function Advance(db: Db, cycle: nat, from: CyclePhase, to: CyclePhase): Reply {
    if !AtPhase(db.cycles, cycle, from) then Reply(db, Rejected(PreconditionFailed))
    else
      var moved := db.(cycles := MoveCycle(db.cycles, cycle, from, to));
      Reply(Transition(moved, cycle, from, to), Applied(db.next))
  }

  predicate Blank(s: string) {
    forall c <- s :: IsSpace(c)
  }

  predicate Invalid(c: Command) {
    c.CreateObjective? && (Blank(c.summary) || Blank(c.outcome))
  }

  predicate Creates(c: Command) {
    c.CreateObjective? || c.CreateLoop? || c.CreateCycle? || c.CreateNode? || c.CreateTask?
  }

  predicate ReportsOnTask(c: Command) {
    c.CompleteTask? || c.IngestFailure? || c.IngestTimeout? || c.ScheduleRetry?
  }

  /** What the command does once its key is known to be new. */
  function Effect(db: Db, c: Command): Reply {
    match c
    case CreateObjective(key, summary, outcome, conversation) => NewObjective(db, key, summary, outcome, conversation)
    case CreateLoop(key, objective, track) => NewLoop(db, key, objective, track)
    case CreateCycle(key, loopId, index, policy) => NewCycle(db, key, loopId, index, policy)
    case CreateNode(_, objective, milestone, title, statement, lane, lifecycle) =>
      BridgeNode(db, objective, milestone, title, statement, lane, lifecycle)
    case CreateTask(key, node, role, skill, status) => NewTask(db, key, node, role, skill, status)
    case DispatchRound(key, cycle, max) => RunRound(db, key, cycle, max)
    case CompleteTask(key, task, final) => Complete(db, key, task, final)
    case IngestFailure(key, task) => RecordFailure(db, key, task)
    case IngestTimeout(key, task) => RecordTimeout(db, key, task)
    case ScheduleRetry(key, task) => Requeue(db, key, task)
    case NextCycle(key, loopId, current, policy, carry) => GenerateNext(db, key, loopId, current, policy, carry)
    case AutoTask(key, node, role, skill, blocked, budget) => NewAutoTask(db, key, node, role, skill, blocked, budget)
    case AdvancePhase(cycle, from, to) => Advance(db, cycle, from, to)
  }

  /** The idempotency check in front of every effect. */
  function Guarded(db: Db, kind: AggregateKind, key: string, effect: Reply): Reply {
    if Consumed(db.journal, kind, key) then Reply(db, SKIPPED) else effect
  }

  function Step(db: Db, c: Command): Reply {
    if Invalid(c) then Reply(db, Rejected(ValidationError))
    else Guarded(db, KindOf(c), KeyOf(c), Effect(db, c))
  }

  function Run(db: Db, commands: seq<Command>): Db {
    if commands == [] then db
    else Step(Run(db, commands[..|commands| - 1]), commands[|commands| - 1]).db
  }
}
