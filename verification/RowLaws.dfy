/** What a delivery does to every table, row by row: the reply in each case, the
    rows that change and what they become, and the event with its payload. */
module RowLaws {
  import opened Text
  import opened ControlPlane
  import opened CommandSpec
  import opened ExactlyOnce

  /** Each row became what `f` makes of it. */
  ghost predicate Rewritten<T(!new)>(before: seq<T>, after: seq<T>, f: T -> T) {
    |after| == |before| && forall i | 0 <= i < |before| :: after[i] == f(before[i])
  }

  /** The first row with its id, which is the one a lookup finds. */
  predicate IsFirst<T>(rows: seq<T>, idOf: T -> nat, k: nat) {
    k < |rows| && forall j | 0 <= j < k :: idOf(rows[j]) != idOf(rows[k])
  }

  predicate Used(journal: seq<Event>, kind: AggregateKind, key: string) {
    exists e <- journal :: e.kind == kind && e.key == key
  }

  predicate OnlySpaces(s: string) {
    forall i | 0 <= i < |s| :: IsSpace(s[i])
  }

  lemma UsedIsConsumed(journal: seq<Event>, kind: AggregateKind, key: string)
    ensures Used(journal, kind, key) <==> Consumed(journal, kind, key)
  {
    if Consumed(journal, kind, key) {
      var i :| 0 <= i < |journal| && journal[i].kind == kind && journal[i].key == key;
      assert journal[i] in journal;
    }
  }

  lemma {:induction false} SelectFirst<T>(rows: seq<T>, idOf: T -> nat, k: nat)
    requires IsFirst(rows, idOf, k)
    ensures Select(rows, idOf, idOf(rows[k])) == Some(rows[k])
  {
    if k == 0 {
    } else {
      assert forall j | 0 <= j < k - 1 :: rows[1..][j] == rows[j + 1];
      SelectFirst(rows[1..], idOf, k - 1);
    }
  }

  /** An event under a key that is new to its kind goes in. */
  lemma NewEventGoesIn(db: Db, kind: AggregateKind, aggregate: nat, key: string, payload: Payload)
    requires !Consumed(db.journal, kind, key)
    ensures AppendEvent(db, kind, aggregate, key, payload) ==
            db.(journal := db.journal + [Event(db.next, kind, aggregate, key, payload)], next := db.next + 1)
  {
    assert !Conflicts(db.journal, Event(db.next, kind, aggregate, key, payload));
  }

  // Creations: the whole reply and the whole store after it

  lemma ObjectiveLaw(db: Db, key: string, summary: string, outcome: string, conversation: Option<string>)
    ensures Step(db, CreateObjective(key, summary, outcome, conversation)) ==
            if OnlySpaces(summary) || OnlySpaces(outcome) then Reply(db, Rejected(ValidationError))
            else if Used(db.journal, ObjectiveKind, key) then Reply(db, Accepted(false, true, []))
            else Reply(db.(objectives := db.objectives + [ObjectiveRow(db.next, summary)],
                           journal := db.journal + [Event(db.next + 1, ObjectiveKind, db.next, key,
                                                          ObjectiveCreated(summary, outcome, conversation))],
                           next := db.next + 2),
                       Accepted(true, false, [db.next + 1]))
  {
    UsedIsConsumed(db.journal, ObjectiveKind, key);
    SpacesAreBlank(summary);
    SpacesAreBlank(outcome);
    if !Consumed(db.journal, ObjectiveKind, key) {
      var inserted := db.(objectives := db.objectives + [ObjectiveRow(db.next, summary)], next := db.next + 1);
      NewEventGoesIn(inserted, ObjectiveKind, db.next, key, ObjectiveCreated(summary, outcome, conversation));
    }
  }

  lemma SpacesAreBlank(s: string)
    ensures Blank(s) <==> OnlySpaces(s)
  {
    assert forall i | 0 <= i < |s| :: s[i] in s;
  }

  lemma LoopLaw(db: Db, key: string, objective: nat, track: string)
    ensures Step(db, CreateLoop(key, objective, track)) ==
            if Used(db.journal, LoopKind, key) then Reply(db, Accepted(false, true, []))
            else if forall o <- db.objectives :: o.id != objective then Reply(db, Rejected(EntityNotFound))
            else Reply(db.(loops := db.loops + [LoopRow(db.next, objective, 0, track)],
                           journal := db.journal + [Event(db.next + 1, LoopKind, db.next, key,
                                                          LoopCreated(objective, track))],
                           next := db.next + 2),
                       Accepted(true, false, [db.next + 1]))
  {
    UsedIsConsumed(db.journal, LoopKind, key);
    if !Consumed(db.journal, LoopKind, key) {
      var inserted := db.(loops := db.loops + [LoopRow(db.next, objective, 0, track)], next := db.next + 1);
      NewEventGoesIn(inserted, LoopKind, db.next, key, LoopCreated(objective, track));
    }
  }

  /** The loop rows with the id take the index. */
  ghost predicate Opened(db: Db, reply: Reply, key: string, loopId: nat, index: I32, policy: string,
                         previous: Option<nat>)
  {
    && Rewritten(db.loops, reply.db.loops, (l: LoopRow) => if l.id == loopId then l.(cycleIndex := index) else l)
    && reply.db == db.(
         loops := reply.db.loops, nodes := reply.db.nodes,
         cycles := db.cycles + [CycleRow(db.next, loopId, index, Intake, policy)],
         journal := db.journal + [Event(db.next + 1, CycleKind, db.next, key,
                                        CycleCreated(loopId, index, policy, previous))],
         next := db.next + 2)
    && reply.outcome == Accepted(true, false, [db.next + 1])
  }

  lemma OpensAsStated(db: Db, nodes: seq<NodeRow>, key: string, loopId: nat, index: I32, policy: string,
                      previous: Option<nat>)
    requires !Consumed(db.journal, CycleKind, key)
    ensures Opened(db, OpenCycle(db.(nodes := nodes), key, loopId, index, policy, previous), key, loopId, index,
                   policy, previous)
    ensures OpenCycle(db.(nodes := nodes), key, loopId, index, policy, previous).db.nodes == nodes
  {
    var inserted := db.(
      nodes := nodes,
      cycles := db.cycles + [CycleRow(db.next, loopId, index, Intake, policy)],
      loops := SetLoopIndex(db.loops, loopId, index),
      next := db.next + 1);
    NewEventGoesIn(inserted, CycleKind, db.next, key, CycleCreated(loopId, index, policy, previous));
  }

  lemma CycleLaw(db: Db, key: string, loopId: nat, index: I32, policy: string)
    ensures var reply := Step(db, CreateCycle(key, loopId, index, policy));
            if Used(db.journal, CycleKind, key) then reply == Reply(db, Accepted(false, true, []))
            else if forall l <- db.loops :: l.id != loopId then reply == Reply(db, Rejected(EntityNotFound))
            else Opened(db, reply, key, loopId, index, policy, None) && reply.db.nodes == db.nodes
  {
    UsedIsConsumed(db.journal, CycleKind, key);
    if !Consumed(db.journal, CycleKind, key) {
      OpensAsStated(db, db.nodes, key, loopId, index, policy, None);
    }
  }

  lemma BridgesAsStated(db: Db, objective: nat, milestone: string, title: string, statement: string, lane: NodeLane,
                        lifecycle: NodeLifecycle)
    requires !Consumed(db.journal, NodeKind, BridgeKey(milestone))
    ensures var text := "[milestone:" + milestone + "] " + statement;
            InsertNode(db, objective, milestone, title, statement, lane, lifecycle) ==
            Reply(db.(nodes := db.nodes + [NodeRow(db.next, objective, title, text, lane, lifecycle)],
                      journal := db.journal + [Event(db.next + 1, NodeKind, db.next, "milestone-bridge-" + milestone,
                                                     MilestoneBridged(milestone, objective))],
                      next := db.next + 2),
                  Accepted(true, false, [db.next + 1]))
  {
    var row := NodeRow(db.next, objective, title, NodeStatement(milestone, statement), lane, lifecycle);
    NewEventGoesIn(db.(nodes := db.nodes + [row], next := db.next + 1), NodeKind, db.next, BridgeKey(milestone),
                   MilestoneBridged(milestone, objective));
  }

  lemma BridgeLaw(db: Db, key: string, objective: nat, milestone: string, title: string, statement: string,
                  lane: NodeLane, lifecycle: NodeLifecycle)
    ensures var bridge := "milestone-bridge-" + milestone;
            Step(db, CreateNode(key, objective, milestone, title, statement, lane, lifecycle)) ==
            if Used(db.journal, NodeKind, bridge) then Reply(db, Accepted(false, true, []))
            else if forall o <- db.objectives :: o.id != objective then Reply(db, Rejected(EntityNotFound))
            else Reply(db.(nodes := db.nodes + [NodeRow(db.next, objective, title,
                                                        "[milestone:" + milestone + "] " + statement, lane, lifecycle)],
                           journal := db.journal + [Event(db.next + 1, NodeKind, db.next, bridge,
                                                          MilestoneBridged(milestone, objective))],
                           next := db.next + 2),
                       Accepted(true, false, [db.next + 1]))
  {
    UsedIsConsumed(db.journal, NodeKind, BridgeKey(milestone));
    if !Consumed(db.journal, NodeKind, BridgeKey(milestone)) {
      BridgesAsStated(db, objective, milestone, title, statement, lane, lifecycle);
    }
  }

  lemma TaskLaw(db: Db, key: string, node: nat, role: string, skill: string, status: TaskStatus)
    ensures Step(db, CreateTask(key, node, role, skill, status)) ==
            if Used(db.journal, TaskKind, key) then Reply(db, Accepted(false, true, []))
            else if forall n <- db.nodes :: n.id != node then Reply(db, Rejected(EntityNotFound))
            else Reply(db.(tasks := db.tasks + [TaskRow(db.next, node, role, skill, status, None)],
                           journal := db.journal + [Event(db.next + 1, TaskKind, db.next, key,
                                                          TaskCreated(node, status))],
                           next := db.next + 2),
                       Accepted(true, false, [db.next + 1]))
  {
    UsedIsConsumed(db.journal, TaskKind, key);
    if !Consumed(db.journal, TaskKind, key) {
      var row := TaskRow(db.next, node, role, skill, status, None);
      NewEventGoesIn(db.(tasks := db.tasks + [row], next := db.next + 1), TaskKind, db.next, key,
                     TaskCreated(node, status));
    }
  }

  /** The tick's task: a proposed node moves with it, to queued if it is blocked
      and to running if not. */
  lemma AutoTaskLaw(db: Db, key: string, node: nat, role: string, skill: string, blocked: bool, budget: int)
    ensures var reply := Step(db, AutoTask(key, node, role, skill, blocked, budget));
            var status := if blocked then TaskStatus.Queued else TaskStatus.Running;
            var lifecycle := if blocked then NodeLifecycle.Queued else NodeLifecycle.Running;
            if Used(db.journal, TaskKind, key) then reply == Reply(db, Accepted(false, true, []))
            else
              && Rewritten(db.nodes, reply.db.nodes, (n: NodeRow) =>
                   if n.id == node && n.lifecycle == Proposed then n.(lifecycle := lifecycle) else n)
              && reply.db == db.(
                   nodes := reply.db.nodes,
                   tasks := db.tasks + [TaskRow(db.next, node, role, skill, status, Some(budget))],
                   journal := db.journal + [Event(db.next + 1, TaskKind, db.next, key, TaskCreated(node, status))],
                   next := db.next + 2)
              && reply.outcome == Accepted(true, false, [db.next + 1])
  {
    UsedIsConsumed(db.journal, TaskKind, key);
    if !Consumed(db.journal, TaskKind, key) {
      var status := if blocked then TaskStatus.Queued else TaskStatus.Running;
      var lifecycle := if blocked then NodeLifecycle.Queued else NodeLifecycle.Running;
      var moved := MoveNodes(db.nodes, [node], {Proposed}, lifecycle);
      var row := TaskRow(db.next, node, role, skill, status, Some(budget));
      NewEventGoesIn(db.(nodes := moved, tasks := db.tasks + [row], next := db.next + 1), TaskKind, db.next, key,
                     TaskCreated(node, status));
    }
  }

  // Reports on a task

  /** One event about the task, tasks, attempts and nodes as stated, and no other change. */
  ghost predicate Reported(db: Db, reply: Reply, key: string, id: nat, payload: Payload, task: TaskRow -> TaskRow,
                           attempt: AttemptRow -> AttemptRow, node: NodeRow -> NodeRow)
  {
    && reply.outcome == Accepted(true, false, [db.next])
    && Rewritten(db.tasks, reply.db.tasks, task)
    && Rewritten(db.attempts, reply.db.attempts, attempt)
    && Rewritten(db.nodes, reply.db.nodes, node)
    && reply.db == db.(
         tasks := reply.db.tasks, attempts := reply.db.attempts, nodes := reply.db.nodes,
         journal := db.journal + [Event(db.next, TaskKind, id, key, payload)], next := db.next + 1)
  }

  /** Rows of the task take the status. */
  function Becomes(id: nat, status: TaskStatus): TaskRow -> TaskRow {
    (t: TaskRow) => if t.id == id then t.(status := status) else t
  }

  /** Running attempts of the task end with the status. */
  function Ends(id: nat, status: TaskStatus): AttemptRow -> AttemptRow {
    (a: AttemptRow) =>
      if a.task == id && a.status == TaskStatus.Running then a.(status := status, finished := true) else a
  }

  function Turns(id: nat, lifecycle: NodeLifecycle): NodeRow -> NodeRow {
    (n: NodeRow) => if n.id == id then n.(lifecycle := lifecycle) else n
  }

  function Same<T>(): T -> T {
    (x: T) => x
  }

  lemma SettlesAsStated(db: Db, key: string, task: TaskRow, status: TaskStatus, attemptStatus: TaskStatus,
                        nodes: seq<NodeRow>, payload: Payload, node: NodeRow -> NodeRow)
    requires !Consumed(db.journal, TaskKind, key) && Rewritten(db.nodes, nodes, node)
    ensures Reported(db, Settle(db, key, task, status, attemptStatus, nodes, payload), key, task.id, payload,
                     Becomes(task.id, status), Ends(task.id, attemptStatus), node)
  {
    var settled := db.(
      tasks := SetTask(db.tasks, task.id, status),
      attempts := FinishAttempts(db.attempts, task.id, attemptStatus),
      nodes := nodes);
    NewEventGoesIn(settled, TaskKind, task.id, key, payload);
  }

  lemma ReportStep(db: Db, key: string, id: nat, final: TaskStatus)
    ensures var isNew := !Used(db.journal, TaskKind, key);
            var skipped := Reply(db, Accepted(false, true, []));
            && Step(db, CompleteTask(key, id, final)) == (if isNew then Complete(db, key, id, final) else skipped)
            && Step(db, IngestFailure(key, id)) == (if isNew then RecordFailure(db, key, id) else skipped)
            && Step(db, IngestTimeout(key, id)) == (if isNew then RecordTimeout(db, key, id) else skipped)
            && Step(db, ScheduleRetry(key, id)) == (if isNew then Requeue(db, key, id) else skipped)
  {
    UsedIsConsumed(db.journal, TaskKind, key);
  }

  /** The node is completed exactly when the task succeeded, and failed otherwise. */
  lemma CompletionLaw(db: Db, key: string, k: nat, final: TaskStatus)
    requires IsFirst(db.tasks, TaskId, k)
    ensures var t := db.tasks[k];
            var reply := Step(db, CompleteTask(key, t.id, final));
            var lifecycle := if final == TaskStatus.Succeeded then Completed else NodeLifecycle.Failed;
            if Used(db.journal, TaskKind, key) then reply == Reply(db, Accepted(false, true, []))
            else if t.status == TaskStatus.Succeeded || t.status == TaskStatus.Failed || t.status == Cancelled
              then reply == Reply(db, Rejected(IllegalTransition))
            else Reported(db, reply, key, t.id, TaskCompleted(final),
                          Becomes(t.id, final), Ends(t.id, final), Turns(t.node, lifecycle))
  {
    var t := db.tasks[k];
    SelectFirst(db.tasks, TaskId, k);
    ReportStep(db, key, t.id, final);
    UsedIsConsumed(db.journal, TaskKind, key);
    if !Consumed(db.journal, TaskKind, key) && !Terminal(t.status) {
      var lifecycle := if final == TaskStatus.Succeeded then Completed else NodeLifecycle.Failed;
      SettlesAsStated(db, key, t, final, final, SetNode(db.nodes, t.node, lifecycle), TaskCompleted(final),
                      Turns(t.node, lifecycle));
    }
  }

  lemma FailureLaw(db: Db, key: string, k: nat)
    requires IsFirst(db.tasks, TaskId, k)
    ensures var t := db.tasks[k];
            var reply := Step(db, IngestFailure(key, t.id));
            if Used(db.journal, TaskKind, key) then reply == Reply(db, Accepted(false, true, []))
            else Reported(db, reply, key, t.id, TaskFailed, Becomes(t.id, TaskStatus.Failed),
                          Ends(t.id, TaskStatus.Failed), Turns(t.node, NodeLifecycle.Failed))
  {
    var t := db.tasks[k];
    SelectFirst(db.tasks, TaskId, k);
    ReportStep(db, key, t.id, TaskStatus.Failed);
    UsedIsConsumed(db.journal, TaskKind, key);
    if !Consumed(db.journal, TaskKind, key) {
      SettlesAsStated(db, key, t, TaskStatus.Failed, TaskStatus.Failed,
                      SetNode(db.nodes, t.node, NodeLifecycle.Failed), TaskFailed, Turns(t.node, NodeLifecycle.Failed));
    }
  }

  lemma TimeoutLaw(db: Db, key: string, k: nat)
    requires IsFirst(db.tasks, TaskId, k)
    ensures var t := db.tasks[k];
            var reply := Step(db, IngestTimeout(key, t.id));
            if Used(db.journal, TaskKind, key) then reply == Reply(db, Accepted(false, true, []))
            else if t.status != TaskStatus.Running then reply == Reply(db, Rejected(IllegalTransition))
            else Reported(db, reply, key, t.id, TaskTimedOut, Becomes(t.id, TaskStatus.Failed), Ends(t.id, TimedOut),
                          Same())
  {
    var t := db.tasks[k];
    SelectFirst(db.tasks, TaskId, k);
    ReportStep(db, key, t.id, TaskStatus.Failed);
    UsedIsConsumed(db.journal, TaskKind, key);
    if !Consumed(db.journal, TaskKind, key) && t.status == TaskStatus.Running {
      SettlesAsStated(db, key, t, TaskStatus.Failed, TimedOut, db.nodes, TaskTimedOut, Same());
    }
  }

  /** How many attempts the task has. */
  ghost function AttemptsOf(attempts: seq<AttemptRow>, id: nat): nat {
    |set i | 0 <= i < |attempts| && attempts[i].task == id|
  }

  lemma OneMoreAttempt(rest: seq<AttemptRow>, last: AttemptRow, id: nat)
    ensures AttemptsOf(rest + [last], id) == AttemptsOf(rest, id) + if last.task == id then 1 else 0
  {
    var attempts := rest + [last];
    var before := set i | 0 <= i < |rest| && rest[i].task == id;
    var all := set i | 0 <= i < |attempts| && attempts[i].task == id;
    assert forall i | 0 <= i < |rest| :: attempts[i] == rest[i];
    if last.task == id {
      assert all == before + {|rest|};
    } else {
      assert all == before;
    }
  }

  lemma {:induction false} AttemptsAreCounted(attempts: seq<AttemptRow>, id: nat)
    ensures AttemptCount(attempts, id) == AttemptsOf(attempts, id)
  {
    if attempts == [] {
    } else {
      var rest, last := attempts[..|attempts| - 1], attempts[|attempts| - 1];
      AttemptsAreCounted(rest, id);
      OneMoreAttempt(rest, last, id);
      assert attempts == rest + [last];
    }
  }

  lemma RequeuesAsStated(db: Db, key: string, t: TaskRow)
    requires !Consumed(db.journal, TaskKind, key)
    ensures var requeued := db.(
              tasks := SetTask(db.tasks, t.id, TaskStatus.Queued),
              nodes := SetNode(db.nodes, t.node, NodeLifecycle.Queued));
            Reported(db, Reply(AppendEvent(requeued, TaskKind, t.id, key, RetryScheduled), Applied(db.next)), key, t.id,
                     RetryScheduled, Becomes(t.id, TaskStatus.Queued), Same(), Turns(t.node, NodeLifecycle.Queued))
  {
    var requeued := db.(
      tasks := SetTask(db.tasks, t.id, TaskStatus.Queued),
      nodes := SetNode(db.nodes, t.node, NodeLifecycle.Queued));
    NewEventGoesIn(requeued, TaskKind, t.id, key, RetryScheduled);
  }

  lemma RetryLaw(db: Db, key: string, k: nat)
    requires IsFirst(db.tasks, TaskId, k)
    ensures var t := db.tasks[k];
            var reply := Step(db, ScheduleRetry(key, t.id));
            if Used(db.journal, TaskKind, key) then reply == Reply(db, Accepted(false, true, []))
            else if t.status != TaskStatus.Failed then reply == Reply(db, Rejected(IllegalTransition))
            else if t.budget.Some? && AttemptsOf(db.attempts, t.id) >= t.budget.value
              then reply == Reply(db, Rejected(PreconditionFailed))
            else Reported(db, reply, key, t.id, RetryScheduled, Becomes(t.id, TaskStatus.Queued), Same(),
                          Turns(t.node, NodeLifecycle.Queued))
  {
    var t := db.tasks[k];
    SelectFirst(db.tasks, TaskId, k);
    ReportStep(db, key, t.id, TaskStatus.Failed);
    UsedIsConsumed(db.journal, TaskKind, key);
    AttemptsAreCounted(db.attempts, t.id);
    if !Consumed(db.journal, TaskKind, key) {
      RequeuesAsStated(db, key, t);
    }
  }

  /** A report on a task that does not exist. */
  lemma UnknownTask(db: Db, key: string, id: nat, final: TaskStatus)
    requires !Used(db.journal, TaskKind, key) && forall t <- db.tasks :: t.id != id
    ensures Step(db, CompleteTask(key, id, final)) == Reply(db, Rejected(EntityNotFound))
    ensures Step(db, IngestFailure(key, id)) == Reply(db, Rejected(EntityNotFound))
    ensures Step(db, IngestTimeout(key, id)) == Reply(db, Rejected(EntityNotFound))
    ensures Step(db, ScheduleRetry(key, id)) == Reply(db, Rejected(EntityNotFound))
  {
    UsedIsConsumed(db.journal, TaskKind, key);
  }

  // Cycles

  /** The index after the loop's own, as 32 bits hold it; 1 without a loop. */
  ghost predicate IndexAfter(loops: seq<LoopRow>, loopId: nat, index: I32) {
    && ((forall l <- loops :: l.id != loopId) ==> index == 1)
    && forall k | 0 <= k < |loops| && IsFirst(loops, LoopId, k) && loops[k].id == loopId ::
         index as int == if loops[k].cycleIndex == 0x7FFF_FFFF then -0x8000_0000 else loops[k].cycleIndex + 1
  }

  lemma FollowingIsAfter(loops: seq<LoopRow>, loopId: nat)
    ensures IndexAfter(loops, loopId, FollowingIndex(loops, loopId))
  {
    forall k | 0 <= k < |loops| && IsFirst(loops, LoopId, k) && loops[k].id == loopId
      ensures Select(loops, LoopId, loopId) == Some(loops[k])
    {
      SelectFirst(loops, LoopId, k);
    }
  }

  /** Carried nodes that had failed or were completed go back to the queue. */
  ghost predicate CarriedOver(carry: seq<nat>, before: seq<NodeRow>, after: seq<NodeRow>) {
    Rewritten(before, after, (n: NodeRow) =>
      if n.id in carry && (n.lifecycle == NodeLifecycle.Failed || n.lifecycle == Completed)
      then n.(lifecycle := NodeLifecycle.Queued) else n)
  }

  lemma NextCycleStep(db: Db, key: string, loopId: nat, current: nat, policy: string, carry: seq<nat>)
    ensures Step(db, NextCycle(key, loopId, current, policy, carry)) ==
            if Used(db.journal, CycleKind, key) then Reply(db, Accepted(false, true, []))
            else GenerateNext(db, key, loopId, current, policy, carry)
  {
    UsedIsConsumed(db.journal, CycleKind, key);
  }

  lemma GeneratesAsStated(db: Db, key: string, loopId: nat, current: nat, policy: string, carry: seq<nat>)
    requires !Consumed(db.journal, CycleKind, key)
    ensures var index := FollowingIndex(db.loops, loopId);
            var carried := MoveNodes(db.nodes, carry, {NodeLifecycle.Failed, Completed}, NodeLifecycle.Queued);
            var reply := OpenCycle(db.(nodes := carried), key, loopId, index, policy, Some(current));
            && Opened(db, reply, key, loopId, index, policy, Some(current))
            && CarriedOver(carry, db.nodes, reply.db.nodes)
  {
    var carried := MoveNodes(db.nodes, carry, {NodeLifecycle.Failed, Completed}, NodeLifecycle.Queued);
    OpensAsStated(db, carried, key, loopId, FollowingIndex(db.loops, loopId), policy, Some(current));
  }

  /** From a ready cycle only: exactly the carried nodes that had failed or were
      completed go back to the queue. */
  lemma NextCycleLaw(db: Db, key: string, loopId: nat, k: nat, policy: string, carry: seq<nat>) returns (index: I32)
    requires IsFirst(db.cycles, CycleId, k)
    ensures IndexAfter(db.loops, loopId, index)
    ensures var current := db.cycles[k];
            var reply := Step(db, NextCycle(key, loopId, current.id, policy, carry));
            if Used(db.journal, CycleKind, key) then reply == Reply(db, Accepted(false, true, []))
            else if current.phase != NextCycleReady then reply == Reply(db, Rejected(PreconditionFailed))
            else
              && Opened(db, reply, key, loopId, index, policy, Some(current.id))
              && CarriedOver(carry, db.nodes, reply.db.nodes)
  {
    index := FollowingIndex(db.loops, loopId);
    FollowingIsAfter(db.loops, loopId);
    SelectFirst(db.cycles, CycleId, k);
    NextCycleStep(db, key, loopId, db.cycles[k].id, policy, carry);
    UsedIsConsumed(db.journal, CycleKind, key);
    if !Used(db.journal, CycleKind, key) {
      GeneratesAsStated(db, key, loopId, db.cycles[k].id, policy, carry);
    }
  }

  lemma UnknownCycle(db: Db, key: string, loopId: nat, current: nat, policy: string, carry: seq<nat>)
    requires !Used(db.journal, CycleKind, key) && forall c <- db.cycles :: c.id != current
    ensures Step(db, NextCycle(key, loopId, current, policy, carry)) == Reply(db, Rejected(EntityNotFound))
  {
    UsedIsConsumed(db.journal, CycleKind, key);
  }

  /** Some row agrees with the event in kind, aggregate and key. */
  predicate HasRow(journal: seq<Event>, e: Event) {
    exists d <- journal :: d.kind == e.kind && d.aggregate == e.aggregate && d.key == e.key
  }

  lemma RowConflicts(journal: seq<Event>, e: Event)
    ensures HasRow(journal, e) <==> Conflicts(journal, e)
  {
    if Conflicts(journal, e) {
      var i :| 0 <= i < |journal| &&
        journal[i].kind == e.kind && journal[i].aggregate == e.aggregate && journal[i].key == e.key;
      assert journal[i] in journal;
    }
  }

  /** A phase change: the rows with the id that are in the phase expected, the
      transition, and the sidecar record if there is none like it. */
  ghost predicate Advanced(db: Db, reply: Reply, cycle: nat, from: CyclePhase, to: CyclePhase) {
    var transition := Event(db.next, CycleKind, cycle, PhaseKey(cycle, from, to), PhaseTransitioned(from, to));
    var record := Event(db.next + 1, SidecarKind, cycle, SidecarKey(cycle, from, to), PhaseRecorded(to, from));
    && Rewritten(db.cycles, reply.db.cycles, (c: CycleRow) =>
         if c.id == cycle && c.phase == from then c.(phase := to) else c)
    && reply.db == db.(
         cycles := reply.db.cycles,
         journal := db.journal + [transition] + (if HasRow(db.journal, record) then [] else [record]),
         next := db.next + 2)
    && reply.outcome == Accepted(true, false, [db.next])
  }

  lemma RecordGoesIn(db: Db, transition: Event, record: Event)
    requires transition.kind == CycleKind && record.kind == SidecarKind
    ensures Journaled(db.journal + [transition], record)
            == db.journal + [transition] + if HasRow(db.journal, record) then [] else [record]
  {
    RowConflicts(db.journal, record);
    RowConflicts(db.journal + [transition], record);
    assert HasRow(db.journal + [transition], record) <==> HasRow(db.journal, record);
  }

  lemma TransitionsAsStated(db: Db, cycle: nat, from: CyclePhase, to: CyclePhase, key: string, sidecar: string)
    requires !Consumed(db.journal, CycleKind, key)
    ensures var transition := Event(db.next, CycleKind, cycle, key, PhaseTransitioned(from, to));
            var record := Event(db.next + 1, SidecarKind, cycle, sidecar, PhaseRecorded(to, from));
            AppendEvent(AppendEvent(db, CycleKind, cycle, key, PhaseTransitioned(from, to)),
                        SidecarKind, cycle, sidecar, PhaseRecorded(to, from)) ==
            db.(journal := db.journal + [transition] + (if HasRow(db.journal, record) then [] else [record]),
                next := db.next + 2)
  {
    NewEventGoesIn(db, CycleKind, cycle, key, PhaseTransitioned(from, to));
    RecordGoesIn(db, Event(db.next, CycleKind, cycle, key, PhaseTransitioned(from, to)),
                 Event(db.next + 1, SidecarKind, cycle, sidecar, PhaseRecorded(to, from)));
  }

  lemma MovesRows(cycles: seq<CycleRow>, cycle: nat, from: CyclePhase, to: CyclePhase)
    ensures Rewritten(cycles, MoveCycle(cycles, cycle, from, to), (c: CycleRow) =>
              if c.id == cycle && c.phase == from then c.(phase := to) else c)
  {
  }

  lemma AdvancesAsStated(db: Db, cycle: nat, from: CyclePhase, to: CyclePhase)
    requires AtPhase(db.cycles, cycle, from) && !Consumed(db.journal, CycleKind, PhaseKey(cycle, from, to))
    ensures Advanced(db, Advance(db, cycle, from, to), cycle, from, to)
  {
    var moved := db.(cycles := MoveCycle(db.cycles, cycle, from, to));
    MovesRows(db.cycles, cycle, from, to);
    TransitionsAsStated(moved, cycle, from, to, PhaseKey(cycle, from, to), SidecarKey(cycle, from, to));
    assert Advance(db, cycle, from, to) == Reply(Transition(moved, cycle, from, to), Applied(db.next));
  }

  lemma AdvanceStep(db: Db, cycle: nat, from: CyclePhase, to: CyclePhase)
    ensures Step(db, AdvancePhase(cycle, from, to)) ==
            if Consumed(db.journal, CycleKind, PhaseKey(cycle, from, to)) then Reply(db, Accepted(false, true, []))
            else Advance(db, cycle, from, to)
  {
  }

  lemma AdvanceLaw(db: Db, cycle: nat, from: CyclePhase, to: CyclePhase)
    ensures var reply := Step(db, AdvancePhase(cycle, from, to));
            if Used(db.journal, CycleKind, PhaseKey(cycle, from, to)) then reply == Reply(db, Accepted(false, true, []))
            else if forall c <- db.cycles :: c.id == cycle ==> c.phase != from
              then reply == Reply(db, Rejected(PreconditionFailed))
            else Advanced(db, reply, cycle, from, to)
  {
    AdvanceStep(db, cycle, from, to);
    UsedIsConsumed(db.journal, CycleKind, PhaseKey(cycle, from, to));
    if !Consumed(db.journal, CycleKind, PhaseKey(cycle, from, to)) && AtPhase(db.cycles, cycle, from) {
      AdvancesAsStated(db, cycle, from, to);
    }
  }

  // Keys as they are written

  lemma TaskKeysAsWritten()
    ensures DispatchKey(8) == "dispatch-8" && AutoTaskKey(4, 6) == "auto-task-4-6"
  {
    assert Decimal(4) == "4" && Decimal(6) == "6" && Decimal(8) == "8";
  }

  lemma PhaseKeysAsWritten(cycle: nat, from: CyclePhase, to: CyclePhase)
    ensures PhaseKey(cycle, from, to) == "phase-" + (Decimal(cycle) + "-" + PhaseName(from) + "-to-" + PhaseName(to))
    ensures SidecarKey(cycle, from, to) ==
            "phase-sidecar-" + (Decimal(cycle) + "-" + PhaseName(from) + "-to-" + PhaseName(to))
  {
  }

  lemma PhaseNamesAsWritten()
    ensures [PhaseName(Intake), PhaseName(ConversationExtraction), PhaseName(PlanElaboration),
             PhaseName(PlanValidation), PhaseName(Review), PhaseName(Decomposition), PhaseName(Dispatch)]
         == ["intake", "conversation_extraction", "plan_elaboration", "plan_validation", "review", "decomposition",
             "dispatch"]
    ensures [PhaseName(Execution), PhaseName(Integration), PhaseName(CertificationSelection),
             PhaseName(Certification), PhaseName(StateUpdate), PhaseName(NextCycleReady)]
         == ["execution", "integration", "certification_selection", "certification", "state_update",
             "next_cycle_ready"]
  {
  }
}
