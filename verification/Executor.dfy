/** The executor itself: tables changed in place, one transaction per command.
    Every command is proved to do exactly what `CommandSpec.Step` says. */
module Executor {
  import opened Text
  import opened ControlPlane
  import Spec = CommandSpec
  import opened TickSpec
  import opened GateLaw

  // SQL over one table, as loops over its rows.

  method SelectRow<T>(rows: seq<T>, idOf: T -> nat, id: nat) returns (found: Option<T>)
    ensures found == Spec.Select(rows, idOf, id)
  {
    var i := 0;
    while i < |rows|
      invariant 0 <= i <= |rows|
      invariant Spec.Select(rows, idOf, id) == Spec.Select(rows[i..], idOf, id)
    {
      if idOf(rows[i]) == id {
        return Some(rows[i]);
      }
      assert rows[i..][1..] == rows[i + 1..];
      i := i + 1;
    }
    return None;
  }

  method UpdateRows<T>(rows: seq<T>, hit: T -> bool, write: T -> T) returns (after: seq<T>, affected: nat)
    ensures |after| == |rows|
    ensures forall i | 0 <= i < |rows| :: after[i] == if hit(rows[i]) then write(rows[i]) else rows[i]
    ensures affected == 0 <==> forall i | 0 <= i < |rows| :: !hit(rows[i])
  {
    after, affected := rows, 0;
    for i := 0 to |rows|
      invariant |after| == |rows|
      invariant forall k | 0 <= k < i :: after[k] == if hit(rows[k]) then write(rows[k]) else rows[k]
      invariant forall k | i <= k < |rows| :: after[k] == rows[k]
      invariant affected == 0 <==> forall k | 0 <= k < i :: !hit(rows[k])
    {
      if hit(rows[i]) {
        after := after[i := write(rows[i])];
        affected := affected + 1;
      }
    }
  }

  class Store {
    var objectives: seq<ObjectiveRow>
    var loops: seq<LoopRow>
    var cycles: seq<CycleRow>
    var nodes: seq<NodeRow>
    var tasks: seq<TaskRow>
    var attempts: seq<AttemptRow>
    var journal: seq<Event>
    var next: nat

    ghost function Model(): Db
      reads this
    {
      Db(objectives, loops, cycles, nodes, tasks, attempts, journal, next)
    }

    constructor ()
      ensures Model() == EMPTY
    {
      objectives, loops, cycles, nodes, tasks, attempts, journal := [], [], [], [], [], [], [];
      next := 0;
    }

    method FreshId() returns (id: nat)
      modifies this`next
      ensures id == old(next) && next == old(next) + 1
    {
      id := next;
      next := next + 1;
    }

    /** The aggregate of an event with this kind and key, if there is one. */
    method IdempotencyCheck(kind: AggregateKind, key: string) returns (existing: Option<nat>)
      ensures existing.Some? <==> Spec.Consumed(journal, kind, key)
      ensures existing.Some? ==>
              exists e <- journal :: e.kind == kind && e.key == key && e.aggregate == existing.value
    {
      for i := 0 to |journal|
        invariant !Spec.Consumed(journal[..i], kind, key)
      {
        if journal[i].kind == kind && journal[i].key == key {
          assert journal[i] in journal;
          return Some(journal[i].aggregate);
        }
      }
      assert journal[..|journal|] == journal;
      return None;
    }

    method AppendEvent(kind: AggregateKind, aggregate: nat, key: string, payload: Payload) returns (eventId: nat)
      modifies this`journal, this`next
      ensures eventId == old(next)
      ensures Model() == Spec.AppendEvent(old(Model()), kind, aggregate, key, payload)
    {
      eventId := FreshId();
      var e := Event(eventId, kind, aggregate, key, payload);
      var conflict := false;
      for i := 0 to |journal|
        invariant conflict <==> Spec.Conflicts(journal[..i], e)
      {
        if journal[i].kind == kind && journal[i].aggregate == aggregate && journal[i].key == key {
          conflict := true;
          assert journal[..i + 1][i] == journal[i];
        }
        assert forall k | 0 <= k < i :: journal[..i][k] == journal[..i + 1][k];
      }
      assert journal[..|journal|] == journal;
      if !conflict {
        journal := journal + [e];
      }
    }

    method SetTaskStatus(id: nat, status: TaskStatus)
      modifies this`tasks
      ensures tasks == Spec.SetTask(old(tasks), id, status)
    {
      var after, _ := UpdateRows(tasks, (t: TaskRow) => t.id == id, (t: TaskRow) => t.(status := status));
      tasks := after;
    }

    method FinishRunningAttempts(task: nat, status: TaskStatus)
      modifies this`attempts
      ensures attempts == Spec.FinishAttempts(old(attempts), task, status)
    {
      var after, _ := UpdateRows(attempts, (a: AttemptRow) => a.task == task && a.status == TaskStatus.Running,
                                 (a: AttemptRow) => a.(status := status, finished := true));
      attempts := after;
    }

    method SetNodeLifecycle(id: nat, lifecycle: NodeLifecycle)
      modifies this`nodes
      ensures nodes == Spec.SetNode(old(nodes), id, lifecycle)
    {
      var after, _ := UpdateRows(nodes, (n: NodeRow) => n.id == id, (n: NodeRow) => n.(lifecycle := lifecycle));
      nodes := after;
    }

    method MoveNode(id: nat, from: set<NodeLifecycle>, to: NodeLifecycle)
      modifies this`nodes
      ensures nodes == Spec.MoveNodes(old(nodes), [id], from, to)
    {
      var after, _ := UpdateRows(nodes, (n: NodeRow) => n.id == id && n.lifecycle in from,
                                 (n: NodeRow) => n.(lifecycle := to));
      nodes := after;
    }

    method SetLoopIndex(id: nat, index: I32)
      modifies this`loops
      ensures loops == Spec.SetLoopIndex(old(loops), id, index)
    {
      var after, _ := UpdateRows(loops, (l: LoopRow) => l.id == id, (l: LoopRow) => l.(cycleIndex := index));
      loops := after;
    }

    method MoveCycle(id: nat, from: CyclePhase, to: CyclePhase) returns (affected: nat)
      modifies this`cycles
      ensures affected == 0 <==> !Spec.AtPhase(old(cycles), id, from)
      ensures affected == 0 ==> cycles == old(cycles)
      ensures cycles == Spec.MoveCycle(old(cycles), id, from, to)
    {
      var after;
      after, affected := UpdateRows(cycles, (c: CycleRow) => c.id == id && c.phase == from,
                                    (c: CycleRow) => c.(phase := to));
      assert affected == 0 ==> after == cycles;
      cycles := after;
    }

    method MaxAttemptIndex(task: nat) returns (max: Option<int>)
      ensures max == Spec.MaxIndex(attempts, task)
    {
      max := None;
      for i := 0 to |attempts|
        invariant max == Spec.MaxIndex(attempts[..i], task)
      {
        assert attempts[..i + 1][..i] == attempts[..i];
        if attempts[i].task == task {
          max := if max.None? then Some(attempts[i].index) else Some(Spec.Max(max.value, attempts[i].index));
        }
      }
      assert attempts[..|attempts|] == attempts;
    }

    method CountAttempts(task: nat) returns (count: nat)
      ensures count == Spec.AttemptCount(attempts, task)
    {
      count := 0;
      for i := 0 to |attempts|
        invariant count == Spec.AttemptCount(attempts[..i], task)
      {
        assert attempts[..i + 1][..i] == attempts[..i];
        if attempts[i].task == task {
          count := count + 1;
        }
      }
      assert attempts[..|attempts|] == attempts;
    }

    /** Queued rows in scope, oldest first, at most `max` of them. */
    method QueuedTasks(scope: Option<nat>, max: nat) returns (rows: seq<TaskRow>)
      ensures rows == Spec.Limit(Spec.QueuedRows(Model(), tasks, scope), max)
    {
      rows := [];
      ghost var all := [];
      for i := 0 to |tasks|
        invariant all == Spec.QueuedRows(Model(), tasks[..i], scope)
        invariant rows == Spec.Limit(all, max)
      {
        assert tasks[..i + 1][..i] == tasks[..i];
        var t := tasks[i];
        var inScope := scope.None? || exists n, l, c | n in nodes && l in loops && c in cycles ::
          n.id == t.node && l.objective == n.objective && c.loopId == l.id && c.id == scope.value;
        if t.status == TaskStatus.Queued && inScope {
          all := all + [t];
          if |rows| < max {
            rows := rows + [t];
          }
        }
      }
      assert tasks[..|tasks|] == tasks;
    }

    // Commands

    method ExecuteCreateObjective(key: string, summary: string, outcome: string, conversation: Option<string>)
      returns (r: Outcome)
      modifies this
      ensures Reply(Model(), r) ==
              if Spec.Blank(summary) || Spec.Blank(outcome) then Reply(old(Model()), Rejected(ValidationError))
              else Spec.Guarded(old(Model()), ObjectiveKind, key,
                     Spec.NewObjective(old(Model()), key, summary, outcome, conversation))
    {
      TrimEmpty(summary);
      TrimEmpty(outcome);
      if Trim(summary) == "" {
        return Rejected(ValidationError);
      }
      if Trim(outcome) == "" {
        return Rejected(ValidationError);
      }
      var existing := IdempotencyCheck(ObjectiveKind, key);
      if existing.Some? {
        return SKIPPED;
      }
      var eventId := InsertObjective(key, summary, outcome, conversation);
      return Applied(eventId);
    }

    method InsertObjective(key: string, summary: string, outcome: string, conversation: Option<string>)
      returns (eventId: nat)
      modifies this
      ensures Reply(Model(), Applied(eventId)) == Spec.NewObjective(old(Model()), key, summary, outcome, conversation)
    {
      var id := FreshId();
      objectives := objectives + [ObjectiveRow(id, summary)];
      eventId := AppendEvent(ObjectiveKind, id, key, ObjectiveCreated(summary, outcome, conversation));
    }

    method ExecuteCreateLoop(key: string, objective: nat, track: string) returns (r: Outcome)
      modifies this
      ensures Reply(Model(), r) ==
              Spec.Guarded(old(Model()), LoopKind, key, Spec.NewLoop(old(Model()), key, objective, track))
    {
      var existing := IdempotencyCheck(LoopKind, key);
      if existing.Some? {
        return SKIPPED;
      }
      var found := SelectRow(objectives, ObjectiveId, objective);
      if found.None? {
        return Rejected(EntityNotFound);
      }
      var eventId := InsertLoop(key, objective, track);
      return Applied(eventId);
    }

    method InsertLoop(key: string, objective: nat, track: string) returns (eventId: nat)
      modifies this
      ensures Reply(Model(), Applied(eventId)) == Spec.InsertLoop(old(Model()), key, objective, track)
    {
      var id := FreshId();
      loops := loops + [LoopRow(id, objective, 0, track)];
      eventId := AppendEvent(LoopKind, id, key, LoopCreated(objective, track));
    }

    method ExecuteCreateCycle(key: string, loopId: nat, index: I32, policy: string) returns (r: Outcome)
      modifies this
      ensures Reply(Model(), r) ==
              Spec.Guarded(old(Model()), CycleKind, key, Spec.NewCycle(old(Model()), key, loopId, index, policy))
    {
      var existing := IdempotencyCheck(CycleKind, key);
      if existing.Some? {
        return SKIPPED;
      }
      var found := SelectRow(loops, LoopId, loopId);
      if found.None? {
        return Rejected(EntityNotFound);
      }
      var eventId := InsertCycle(key, loopId, index, policy);
      return Applied(eventId);
    }

    method InsertCycle(key: string, loopId: nat, index: I32, policy: string) returns (eventId: nat)
      modifies this
      ensures Reply(Model(), Applied(eventId)) == Spec.OpenCycle(old(Model()), key, loopId, index, policy, None)
    {
      var id := FreshId();
      cycles := cycles + [CycleRow(id, loopId, index, Intake, policy)];
      SetLoopIndex(loopId, index);
      eventId := AppendEvent(CycleKind, id, key, CycleCreated(loopId, index, policy, None));
    }

    method ExecuteCreateNode(key: string, objective: nat, milestone: string, title: string, statement: string,
                             lane: NodeLane, lifecycle: NodeLifecycle) returns (r: Outcome)
      modifies this
      ensures Reply(Model(), r) ==
              Spec.Guarded(old(Model()), NodeKind, BridgeKey(milestone),
                Spec.BridgeNode(old(Model()), objective, milestone, title, statement, lane, lifecycle))
    {
      var bridgeKey := BridgeKey(milestone);
      var existing := IdempotencyCheck(NodeKind, bridgeKey);
      if existing.Some? {
        return SKIPPED;
      }
      var found := SelectRow(objectives, ObjectiveId, objective);
      if found.None? {
        return Rejected(EntityNotFound);
      }
      var eventId := InsertNode(objective, milestone, title, statement, lane, lifecycle);
      return Applied(eventId);
    }

    method InsertNode(objective: nat, milestone: string, title: string, statement: string, lane: NodeLane,
                      lifecycle: NodeLifecycle) returns (eventId: nat)
      modifies this
      ensures Reply(Model(), Applied(eventId)) ==
              Spec.InsertNode(old(Model()), objective, milestone, title, statement, lane, lifecycle)
    {
      var id := FreshId();
      var text := "[milestone:" + milestone + "] " + statement;
      nodes := nodes + [NodeRow(id, objective, title, text, lane, lifecycle)];
      eventId := AppendEvent(NodeKind, id, BridgeKey(milestone), MilestoneBridged(milestone, objective));
    }

    method ExecuteCreateTask(key: string, node: nat, role: string, skill: string, status: TaskStatus)
      returns (r: Outcome)
      modifies this
      ensures Reply(Model(), r) ==
              Spec.Guarded(old(Model()), TaskKind, key,
                Spec.NewTask(old(Model()), key, node, role, skill, status))
    {
      var existing := IdempotencyCheck(TaskKind, key);
      if existing.Some? {
        return SKIPPED;
      }
      var found := SelectRow(nodes, NodeId, node);
      if found.None? {
        return Rejected(EntityNotFound);
      }
      var eventId := InsertTask(key, node, role, skill, status, None);
      return Applied(eventId);
    }

    method InsertTask(key: string, node: nat, role: string, skill: string, status: TaskStatus, budget: Option<int>)
      returns (eventId: nat)
      modifies this
      ensures Reply(Model(), Applied(eventId)) ==
              Spec.InsertTask(old(Model()), key, node, role, skill, status, budget)
    {
      var id := FreshId();
      tasks := tasks + [TaskRow(id, node, role, skill, status, budget)];
      eventId := AppendEvent(TaskKind, id, key, TaskCreated(node, status));
    }

    /** One iteration of the dispatch loop. */
    method StartTask(row: TaskRow) returns (eventIds: seq<nat>)
      modifies this
      ensures Spec.Round(Model(), eventIds) == Spec.StartRow(old(Model()), row)
    {
      var after, affected := UpdateRows(tasks, (t: TaskRow) => t.id == row.id && t.status == TaskStatus.Queued,
                                        (t: TaskRow) => t.(status := TaskStatus.Running));
      assert after == Spec.StartTask(tasks, row.id);
      if affected == 0 {
        assert after == tasks;
        return [];
      }
      tasks := after;
      var eventId := RecordStart(row);
      return [eventId];
    }

    /** The rest of the iteration, once the row has become `running`. */
    method RecordStart(row: TaskRow) returns (eventId: nat)
      modifies this`attempts, this`nodes, this`journal, this`next
      ensures eventId == old(next) + 1
      ensures var index := Spec.NextIndex(old(attempts), row.id);
              Model() == Spec.AppendEvent(
                old(Model()).(
                  attempts := old(attempts) + [AttemptRow(old(next), row.id, index, TaskStatus.Running, false)],
                  nodes := Spec.MoveNodes(old(nodes), [row.node], {Proposed, NodeLifecycle.Queued},
                                          NodeLifecycle.Running),
                  next := old(next) + 1),
                TaskKind, row.id, DispatchKey(row.id), TaskDispatched(old(next), index))
    {
      var attemptId, index := InsertAttempt(row.id);
      MoveNode(row.node, {Proposed, NodeLifecycle.Queued}, NodeLifecycle.Running);
      eventId := AppendEvent(TaskKind, row.id, DispatchKey(row.id), TaskDispatched(attemptId, index));
    }

    method InsertAttempt(task: nat) returns (id: nat, index: int)
      modifies this`attempts, this`next
      ensures id == old(next) && next == old(next) + 1 && index == Spec.NextIndex(old(attempts), task)
      ensures attempts == old(attempts) + [AttemptRow(id, task, index, TaskStatus.Running, false)]
    {
      var max := MaxAttemptIndex(task);
      index := if max.None? then 1 else max.value + 1;
      id := FreshId();
      attempts := attempts + [AttemptRow(id, task, index, TaskStatus.Running, false)];
    }

    method StartTasks(rows: seq<TaskRow>) returns (dispatched: nat, eventIds: seq<nat>)
      modifies this
      ensures Spec.Round(Model(), eventIds) == Spec.StartRows(old(Model()), rows)
      ensures dispatched == |eventIds|
    {
      dispatched, eventIds := 0, [];
      for i := 0 to |rows|
        invariant Spec.Round(Model(), eventIds) == Spec.StartRows(old(Model()), rows[..i])
        invariant dispatched == |eventIds|
      {
        assert rows[..i + 1][..i] == rows[..i];
        var started := StartTask(rows[i]);
        eventIds := eventIds + started;
        dispatched := dispatched + |started|;
      }
      assert rows[..|rows|] == rows;
    }

    method ExecuteDispatch(key: string, scope: Option<nat>, max: nat) returns (r: Outcome)
      modifies this
      ensures Reply(Model(), r) ==
              Spec.Guarded(old(Model()), DispatchKind, key, Spec.RunRound(old(Model()), key, scope, max))
    {
      var existing := IdempotencyCheck(DispatchKind, key);
      if existing.Some? {
        return SKIPPED;
      }
      r := DispatchQueued(key, scope, max);
    }

    method DispatchQueued(key: string, scope: Option<nat>, max: nat) returns (r: Outcome)
      modifies this
      ensures Reply(Model(), r) == Spec.RunRound(old(Model()), key, scope, max)
    {
      var rows := QueuedTasks(scope, max);
      var dispatched, eventIds := StartTasks(rows);
      r := CloseRound(dispatched, eventIds, key, scope, max);
    }

    /** The event of the round itself, under an id of its own. */
    method CloseRound(dispatched: nat, eventIds: seq<nat>, key: string, scope: Option<nat>, max: nat)
      returns (r: Outcome)
      requires dispatched == |eventIds|
      modifies this`journal, this`next
      ensures Reply(Model(), r) == Spec.CloseRound(Spec.Round(old(Model()), eventIds), key, scope, max)
    {
      var roundId := FreshId();
      var eventId := AppendEvent(DispatchKind, roundId, key, RoundCompleted(dispatched, scope, max));
      return Accepted(dispatched > 0, false, eventIds + [eventId]);
    }

    method ExecuteCompletion(key: string, task: nat, final: TaskStatus) returns (r: Outcome)
      modifies this
      ensures Reply(Model(), r) ==
              Spec.Guarded(old(Model()), TaskKind, key, Spec.Complete(old(Model()), key, task, final))
    {
      var existing := IdempotencyCheck(TaskKind, key);
      if existing.Some? {
        return SKIPPED;
      }
      var found := SelectRow(tasks, TaskId, task);
      if found.None? {
        return Rejected(EntityNotFound);
      }
      var status := found.value.status;
      if status == TaskStatus.Succeeded || status == TaskStatus.Failed || status == Cancelled {
        return Rejected(IllegalTransition);
      }
      var lifecycle := if final == TaskStatus.Succeeded then Completed else NodeLifecycle.Failed;
      var eventId := RecordOutcome(key, found.value, final, lifecycle, TaskCompleted(final));
      return Applied(eventId);
    }

    /** Task, running attempts and node take their final states. */
    method RecordOutcome(key: string, task: TaskRow, status: TaskStatus, lifecycle: NodeLifecycle, payload: Payload)
      returns (eventId: nat)
      modifies this
      ensures Reply(Model(), Applied(eventId)) ==
              Spec.Settle(old(Model()), key, task, status, status,
                Spec.SetNode(old(nodes), task.node, lifecycle), payload)
    {
      SetTaskStatus(task.id, status);
      FinishRunningAttempts(task.id, status);
      SetNodeLifecycle(task.node, lifecycle);
      eventId := AppendEvent(TaskKind, task.id, key, payload);
    }

    method ExecuteFailure(key: string, task: nat) returns (r: Outcome)
      modifies this
      ensures Reply(Model(), r) ==
              Spec.Guarded(old(Model()), TaskKind, key, Spec.RecordFailure(old(Model()), key, task))
    {
      var existing := IdempotencyCheck(TaskKind, key);
      if existing.Some? {
        return SKIPPED;
      }
      var found := SelectRow(tasks, TaskId, task);
      if found.None? {
        return Rejected(EntityNotFound);
      }
      var eventId := RecordOutcome(key, found.value, TaskStatus.Failed, NodeLifecycle.Failed, TaskFailed);
      return Applied(eventId);
    }

    method ExecuteTimeout(key: string, task: nat) returns (r: Outcome)
      modifies this
      ensures Reply(Model(), r) ==
              Spec.Guarded(old(Model()), TaskKind, key, Spec.RecordTimeout(old(Model()), key, task))
    {
      var existing := IdempotencyCheck(TaskKind, key);
      if existing.Some? {
        return SKIPPED;
      }
      var found := SelectRow(tasks, TaskId, task);
      if found.None? {
        return Rejected(EntityNotFound);
      }
      if found.value.status != TaskStatus.Running {
        return Rejected(IllegalTransition);
      }
      SetTaskStatus(task, TaskStatus.Failed);
      FinishRunningAttempts(task, TimedOut);
      var eventId := AppendEvent(TaskKind, task, key, TaskTimedOut);
      return Applied(eventId);
    }

    method ExecuteRetry(key: string, task: nat) returns (r: Outcome)
      modifies this
      ensures Reply(Model(), r) ==
              Spec.Guarded(old(Model()), TaskKind, key, Spec.Requeue(old(Model()), key, task))
    {
      var existing := IdempotencyCheck(TaskKind, key);
      if existing.Some? {
        return SKIPPED;
      }
      var found := SelectRow(tasks, TaskId, task);
      if found.None? {
        return Rejected(EntityNotFound);
      }
      if found.value.status != TaskStatus.Failed {
        return Rejected(IllegalTransition);
      }
      if found.value.budget.Some? {
        var count := CountAttempts(task);
        if count >= found.value.budget.value {
          return Rejected(PreconditionFailed);
        }
      }
      SetTaskStatus(task, TaskStatus.Queued);
      SetNodeLifecycle(found.value.node, NodeLifecycle.Queued);
      var eventId := AppendEvent(TaskKind, task, key, RetryScheduled);
      return Applied(eventId);
    }

    method ExecuteNextCycle(key: string, loopId: nat, current: nat, policy: string, carry: seq<nat>)
      returns (r: Outcome)
      modifies this
      ensures Reply(Model(), r) ==
              Spec.Guarded(old(Model()), CycleKind, key,
                Spec.GenerateNext(old(Model()), key, loopId, current, policy, carry))
    {
      var existing := IdempotencyCheck(CycleKind, key);
      if existing.Some? {
        return SKIPPED;
      }
      var found := SelectRow(cycles, CycleId, current);
      if found.None? {
        return Rejected(EntityNotFound);
      }
      if found.value.phase != NextCycleReady {
        return Rejected(PreconditionFailed);
      }
      var parent := SelectRow(loops, LoopId, loopId);
      var index: I32 := if parent.None? then 1 else Succ32(parent.value.cycleIndex);
      var eventId := GenerateCycle(key, loopId, index, current, policy, carry);
      return Applied(eventId);
    }

    method GenerateCycle(key: string, loopId: nat, index: I32, current: nat, policy: string, carry: seq<nat>)
      returns (eventId: nat)
      modifies this
      ensures var carried := Spec.MoveNodes(old(nodes), carry, {NodeLifecycle.Failed, Completed}, NodeLifecycle.Queued);
              Reply(Model(), Applied(eventId)) ==
              Spec.OpenCycle(old(Model()).(nodes := carried), key, loopId, index, policy, Some(current))
    {
      var id := FreshId();
      cycles := cycles + [CycleRow(id, loopId, index, Intake, policy)];
      SetLoopIndex(loopId, index);
      CarryForward(carry);
      eventId := AppendEvent(CycleKind, id, key, CycleCreated(loopId, index, policy, Some(current)));
    }

    /** Carried nodes go back to the queue one by one; a repeat changes nothing. */
    method CarryForward(carry: seq<nat>)
      modifies this`nodes
      ensures nodes == Spec.MoveNodes(old(nodes), carry, {NodeLifecycle.Failed, Completed}, NodeLifecycle.Queued)
    {
      for i := 0 to |carry|
        invariant nodes ==
          Spec.MoveNodes(old(nodes), carry[..i], {NodeLifecycle.Failed, Completed}, NodeLifecycle.Queued)
      {
        MoveNode(carry[i], {NodeLifecycle.Failed, Completed}, NodeLifecycle.Queued);
        assert carry[..i + 1] == carry[..i] + [carry[i]];
      }
      assert carry[..|carry|] == carry;
    }

    // The tick's writes

    /** The tick's insert of a task under a policy budget. */
    method InsertAutoTask(key: string, node: nat, role: string, skill: string, blocked: bool, budget: int)
      returns (r: Outcome)
      modifies this
      ensures Reply(Model(), r) ==
              Spec.Guarded(old(Model()), TaskKind, key,
                Spec.NewAutoTask(old(Model()), key, node, role, skill, blocked, budget))
    {
      var existing := IdempotencyCheck(TaskKind, key);
      if existing.Some? {
        return SKIPPED;
      }
      var id := FreshId();
      var status := if blocked then TaskStatus.Queued else TaskStatus.Running;
      tasks := tasks + [TaskRow(id, node, role, skill, status, Some(budget))];
      MoveNode(node, {Proposed}, if blocked then NodeLifecycle.Queued else NodeLifecycle.Running);
      var eventId := AppendEvent(TaskKind, id, key, TaskCreated(node, status));
      return Applied(eventId);
    }

    /** The tick's phase change, guarded by a key made of its arguments. */
    method AdvanceCyclePhase(cycle: nat, from: CyclePhase, to: CyclePhase) returns (r: Outcome)
      modifies this
      ensures Reply(Model(), r) ==
              Spec.Guarded(old(Model()), CycleKind, PhaseKey(cycle, from, to),
                Spec.Advance(old(Model()), cycle, from, to))
    {
      var existing := IdempotencyCheck(CycleKind, PhaseKey(cycle, from, to));
      if existing.Some? {
        return SKIPPED;
      }
      r := MoveCycleFrom(cycle, from, to);
    }

    /** Guarded by the phase it expects. */
    method MoveCycleFrom(cycle: nat, from: CyclePhase, to: CyclePhase) returns (r: Outcome)
      modifies this
      ensures Reply(Model(), r) == Spec.Advance(old(Model()), cycle, from, to)
    {
      var affected := MoveCycle(cycle, from, to);
      if affected == 0 {
        return Rejected(PreconditionFailed);
      }
      var eventId := RecordTransition(cycle, from, to);
      return Applied(eventId);
    }

    method RecordTransition(cycle: nat, from: CyclePhase, to: CyclePhase) returns (eventId: nat)
      modifies this`journal, this`next
      ensures eventId == old(next)
      ensures Model() == Spec.Transition(old(Model()), cycle, from, to)
    {
      eventId := AppendEvent(CycleKind, cycle, PhaseKey(cycle, from, to), PhaseTransitioned(from, to));
      var _ := AppendEvent(SidecarKind, cycle, SidecarKey(cycle, from, to), PhaseRecorded(to, from));
    }

    /** From intake to plan elaboration, under a key of its own. */
    method AdvanceIntakeCycle(cycle: nat)
      modifies this
      ensures Model() == Tick(old(Model()), AdvanceIntake(cycle))
    {
      var existing := IdempotencyCheck(CycleKind, IntakeKey(cycle));
      if existing.Some? {
        return;
      }
      var affected := MoveCycle(cycle, Intake, PlanElaboration);
      if affected == 0 {
        return;
      }
      var _ := AppendEvent(CycleKind, cycle, IntakeKey(cycle), PhaseTransitioned(Intake, PlanElaboration));
    }

    method HasElaboratingCycle(cycle: nat) returns (found: bool)
      ensures found <==> Elaborating(Model(), cycle)
    {
      for i := 0 to |cycles|
        invariant forall k | 0 <= k < i :: !InPhaseOfLoop(cycles[k], loops, cycle)
      {
        var parent := SelectRow(loops, LoopId, cycles[i].loopId);
        if cycles[i].id == cycle && cycles[i].phase == PlanElaboration && parent.Some? {
          assert cycles[i] in cycles && InPhaseOfLoop(cycles[i], loops, cycle);
          return true;
        }
      }
      return false;
    }

    method CountEvaluations(cycle: nat) returns (n: nat)
      ensures n == Evaluations(journal, cycle)
    {
      n := 0;
      for i := 0 to |journal|
        invariant n == Evaluations(journal[..i], cycle)
      {
        assert journal[..i + 1][..i] == journal[..i];
        if journal[i].aggregate == cycle && journal[i].payload.GateEvaluated? {
          n := n + 1;
        }
      }
      assert journal[..|journal|] == journal;
    }

    method ElaborationStarted(cycle: nat) returns (started: bool)
      ensures started <==> Started(journal, cycle)
    {
      for i := 0 to |journal|
        invariant forall k | 0 <= k < i :: !MentionsElaboration(journal[k], cycle)
      {
        if MentionsElaboration(journal[i], cycle) {
          assert journal[i] in journal;
          return true;
        }
      }
      return false;
    }

    /** Every row with the id, in whatever phase it is. */
    method SetCyclePhase(id: nat, phase: CyclePhase)
      modifies this`cycles
      ensures cycles == SetPhase(old(cycles), id, phase)
    {
      var after, _ := UpdateRows(cycles, (c: CycleRow) => c.id == id, (c: CycleRow) => c.(phase := phase));
      cycles := after;
    }

    /** The forced override. */
    method OverrideGate(cycle: nat, late: bool)
      requires MayForce(Model(), cycle, late)
      modifies this
      ensures Model() == Tick(old(Model()), ForceGate(cycle, late))
    {
      SetCyclePhase(cycle, Decomposition);
      var _ := AppendEvent(CycleKind, cycle, ForceKey(cycle, late), GateForced(late));
    }

    method RecordEvaluation(cycle: nat, n: nat)
      requires MayEvaluate(Model(), cycle) && n == Evaluations(journal, cycle)
      modifies this
      ensures Model() == Tick(old(Model()), EvaluateGate(cycle))
    {
      var _ := AppendEvent(CycleKind, cycle, EvaluationKey(cycle, n + 1), GateEvaluated(n + 1));
    }

    method DeliverAdvance(cycle: nat, from: CyclePhase, to: CyclePhase)
      modifies this
      ensures Model() == Tick(old(Model()), Deliver(AdvancePhase(cycle, from, to)))
    {
      var _ := AdvanceCyclePhase(cycle, from, to);
    }

    /** One cycle's turn at the plan gate: past five evaluations or the time limit
        the gate is overridden, otherwise an evaluation is recorded and the phase
        advanced if the gate opens. */
    method CheckPlanGate(cycle: nat, late: bool, opens: bool)
      modifies this
      ensures Model() == Ticks(old(Model()), GateTurn(old(Model()), cycle, late, opens))
      ensures TurnLaw(old(Model()), Model(), cycle, late, opens)
    {
      ghost var before := Model();
      TurnKeepsLaw(before, cycle, late, opens);
      var selected := HasElaboratingCycle(cycle);
      if !selected {
        return;
      }
      var n := CountEvaluations(cycle);
      var started := ElaborationStarted(cycle);
      if n >= MAX_ELABORATIONS {
        OverrideGate(cycle, false);
        OneTick(before, ForceGate(cycle, false));
      } else if late && started {
        OverrideGate(cycle, true);
        OneTick(before, ForceGate(cycle, true));
      } else {
        RecordEvaluation(cycle, n);
        OneTick(before, EvaluateGate(cycle));
        if opens {
          DeliverAdvance(cycle, PlanElaboration, Decomposition);
          TwoTicks(before, EvaluateGate(cycle), Deliver(AdvancePhase(cycle, PlanElaboration, Decomposition)));
        }
      }
    }

    // Deliveries

    method ExecuteCreation(c: Command) returns (r: Outcome)
      requires Spec.Creates(c)
      modifies this
      ensures Reply(Model(), r) == Spec.Step(old(Model()), c)
    {
      match c
      case CreateObjective(key, summary, outcome, conversation) =>
        r := ExecuteCreateObjective(key, summary, outcome, conversation);
      case CreateLoop(key, objective, track) => r := ExecuteCreateLoop(key, objective, track);
      case CreateCycle(key, loopId, index, policy) => r := ExecuteCreateCycle(key, loopId, index, policy);
      case CreateNode(key, objective, milestone, title, statement, lane, lifecycle) =>
        r := ExecuteCreateNode(key, objective, milestone, title, statement, lane, lifecycle);
      case CreateTask(key, node, role, skill, status) => r := ExecuteCreateTask(key, node, role, skill, status);
    }

    method ExecuteReport(c: Command) returns (r: Outcome)
      requires Spec.ReportsOnTask(c)
      modifies this
      ensures Reply(Model(), r) == Spec.Step(old(Model()), c)
    {
      match c
      case CompleteTask(key, task, final) => r := ExecuteCompletion(key, task, final);
      case IngestFailure(key, task) => r := ExecuteFailure(key, task);
      case IngestTimeout(key, task) => r := ExecuteTimeout(key, task);
      case ScheduleRetry(key, task) => r := ExecuteRetry(key, task);
    }

    /** Any delivery: the tables and the reply are those of the specification. */
    method Execute(c: Command) returns (r: Outcome)
      modifies this
      ensures Reply(Model(), r) == Spec.Step(old(Model()), c)
    {
      if Spec.Creates(c) {
        r := ExecuteCreation(c);
      } else if Spec.ReportsOnTask(c) {
        r := ExecuteReport(c);
      } else {
        match c
        case DispatchRound(key, scope, max) => r := ExecuteDispatch(key, scope, max);
        case NextCycle(key, loopId, current, policy, carry) =>
          r := ExecuteNextCycle(key, loopId, current, policy, carry);
        case AutoTask(key, node, role, skill, blocked, budget) =>
          r := InsertAutoTask(key, node, role, skill, blocked, budget);
        case AdvancePhase(cycle, from, to) => r := AdvanceCyclePhase(cycle, from, to);
      }
    }

    /** A whole run of deliveries. */
    method ExecuteAll(commands: seq<Command>)
      modifies this
      ensures Model() == Spec.Run(old(Model()), commands)
    {
      for i := 0 to |commands|
        invariant Model() == Spec.Run(old(Model()), commands[..i])
      {
        assert commands[..i + 1][..i] == commands[..i];
        var _ := Execute(commands[i]);
      }
      assert commands[..|commands|] == commands;
    }
  }
}
