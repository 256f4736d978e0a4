/** What a command changes in loops, cycles and nodes, and how it journals it. */
module TableChanges {
  import opened Text
  import opened ControlPlane
  import opened CommandSpec
  import opened Attempts

  datatype Change =
    | Quiet
    | LoopAdded(loop: LoopRow)
    | CycleOpened(cycle: CycleRow, previous: Option<nat>)
    | PhaseMoved(id: nat, from: CyclePhase, to: CyclePhase)
    | NodeBridged(node: NodeRow, milestone: string)

  /** The cycle a fresh command opens, told from the tables alone. */
  function OpeningOf(db: Db, c: Command): Change {
    match c
    case CreateCycle(_, loopId, index, policy) =>
      if Select(db.loops, LoopId, loopId).None? then Quiet
      else CycleOpened(CycleRow(db.next, loopId, index, Intake, policy), None)
    case NextCycle(_, loopId, current, policy, _) =>
      var found := Select(db.cycles, CycleId, current);
      if found.None? || found.value.phase != NextCycleReady then Quiet
      else CycleOpened(CycleRow(db.next, loopId, FollowingIndex(db.loops, loopId), Intake, policy), Some(current))
    case _ => Quiet
  }

  function ChangeOf(db: Db, c: Command): Change {
    if Consumed(db.journal, KindOf(c), KeyOf(c)) then Quiet
    else
      match c
      case CreateLoop(_, objective, track) =>
        if Select(db.objectives, ObjectiveId, objective).None? then Quiet
        else LoopAdded(LoopRow(db.next, objective, 0, track))
      case CreateNode(_, objective, milestone, title, statement, lane, lifecycle) =>
        if Select(db.objectives, ObjectiveId, objective).None? then Quiet
        else
          NodeBridged(NodeRow(db.next, objective, title, NodeStatement(milestone, statement), lane, lifecycle),
                      milestone)
      case AdvancePhase(cycle, from, to) =>
        if AtPhase(db.cycles, cycle, from) then PhaseMoved(cycle, from, to) else Quiet
      case _ => OpeningOf(db, c)
  }

  /** The rows are the same but for their lifecycle. */
  ghost predicate SameNodes(nodes: seq<NodeRow>, after: seq<NodeRow>) {
    |after| == |nodes| && forall i | 0 <= i < |nodes| :: after[i] == nodes[i].(lifecycle := after[i].lifecycle)
  }

  /** Events about tasks, rounds, objectives and sidecars. */
  predicate Silent(p: Payload) {
    !p.LoopCreated? && !p.CycleCreated? && !p.MilestoneBridged? && !p.PhaseTransitioned?
  }

  predicate Below(e: Event, next: nat) {
    e.id < next && e.aggregate < next
  }

  /** From position `n` on there are only silent events, with ids below `next`. */
  ghost predicate SilentFrom(journal: seq<Event>, n: nat, next: nat) {
    n <= |journal| && forall i | n <= i < |journal| :: Silent(journal[i].payload) && Below(journal[i], next)
  }

  ghost predicate AddsSilent(before: seq<Event>, after: seq<Event>, next: nat) {
    before <= after && SilentFrom(after, |before|, next)
  }

  /** One event that is not silent, and silent ones after it. */
  ghost predicate Adds(before: seq<Event>, after: seq<Event>, next: nat, kind: AggregateKind, aggregate: nat,
                       key: string, payload: Payload)
  {
    && before <= after && |before| < |after| && SilentFrom(after, |before| + 1, next)
    && Below(after[|before|], next)
    && var e := after[|before|];
       e.kind == kind && e.aggregate == aggregate && e.key == key && e.payload == payload
  }

  ghost predicate Changed(db: Db, next: Db, ch: Change, key: string) {
    && next.next >= db.next
    && match ch
       case Quiet =>
         && next.loops == db.loops && next.cycles == db.cycles && SameNodes(db.nodes, next.nodes)
         && AddsSilent(db.journal, next.journal, next.next)
       case LoopAdded(loop) =>
         && loop.id == db.next && loop.cycleIndex == 0 && next.next > db.next
         && next.loops == db.loops + [loop] && next.cycles == db.cycles && next.nodes == db.nodes
         && Adds(db.journal, next.journal, next.next, LoopKind, loop.id, key, LoopCreated(loop.objective, loop.track))
       case CycleOpened(cycle, previous) =>
         && cycle.id == db.next && cycle.phase == Intake && next.next > db.next
         && next.loops == SetLoopIndex(db.loops, cycle.loopId, cycle.index) && next.cycles == db.cycles + [cycle]
         && SameNodes(db.nodes, next.nodes)
         && Adds(db.journal, next.journal, next.next, CycleKind, cycle.id, key,
                 CycleCreated(cycle.loopId, cycle.index, cycle.policy, previous))
       case PhaseMoved(id, from, to) =>
         && AtPhase(db.cycles, id, from)
         && next.loops == db.loops && next.cycles == MoveCycle(db.cycles, id, from, to) && next.nodes == db.nodes
         && Adds(db.journal, next.journal, next.next, CycleKind, id, key, PhaseTransitioned(from, to))
       case NodeBridged(node, milestone) =>
         && node.id == db.next && next.next > db.next
         && next.loops == db.loops && next.cycles == db.cycles && next.nodes == db.nodes + [node]
         && Adds(db.journal, next.journal, next.next, NodeKind, node.id, key,
                 MilestoneBridged(milestone, node.objective))
  }

  /** Every id in use was handed out by the counter. */
  ghost predicate TasksBelow(tasks: seq<TaskRow>, next: nat) {
    forall i | 0 <= i < |tasks| :: tasks[i].id < next
  }

  ghost predicate CyclesBelow(cycles: seq<CycleRow>, next: nat) {
    forall i | 0 <= i < |cycles| :: cycles[i].id < next
  }

  ghost predicate JournalBelow(journal: seq<Event>, next: nat) {
    forall i | 0 <= i < |journal| :: Below(journal[i], next)
  }

  ghost predicate IdsBelow(db: Db) {
    TasksBelow(db.tasks, db.next) && CyclesBelow(db.cycles, db.next) && JournalBelow(db.journal, db.next)
  }

  // One event at a time

  lemma SilentEvent(db: Db, mid: Db, kind: AggregateKind, aggregate: nat, key: string, payload: Payload, k: string)
    requires Changed(db, mid, Quiet, k) && aggregate < mid.next && Silent(payload)
    ensures Changed(db, AppendEvent(mid, kind, aggregate, key, payload), Quiet, k)
  {
  }

  lemma FreshEvent(db: Db, kind: AggregateKind, aggregate: nat, key: string, payload: Payload)
    requires JournalBelow(db.journal, aggregate) && aggregate < db.next
    ensures Adds(db.journal, AppendEvent(db, kind, aggregate, key, payload).journal, db.next + 1,
                 kind, aggregate, key, payload)
  {
  }

  // Command by command

  lemma ObjectiveQuiet(db: Db, key: string, summary: string, outcome: string, conversation: Option<string>)
    ensures Changed(db, NewObjective(db, key, summary, outcome, conversation).db, Quiet, key)
  {
    var mid := db.(objectives := db.objectives + [ObjectiveRow(db.next, summary)], next := db.next + 1);
    SilentEvent(db, mid, ObjectiveKind, db.next, key, ObjectiveCreated(summary, outcome, conversation), key);
  }

  lemma LoopChange(db: Db, key: string, objective: nat, track: string)
    requires IdsBelow(db)
    ensures Changed(db, InsertLoop(db, key, objective, track).db, LoopAdded(LoopRow(db.next, objective, 0, track)), key)
  {
    var inserted := db.(loops := db.loops + [LoopRow(db.next, objective, 0, track)], next := db.next + 1);
    FreshEvent(inserted, LoopKind, db.next, key, LoopCreated(objective, track));
  }

  lemma CycleChange(db: Db, nodes: seq<NodeRow>, key: string, loopId: nat, index: I32, policy: string,
                    previous: Option<nat>)
    requires IdsBelow(db) && SameNodes(db.nodes, nodes)
    ensures Changed(db, OpenCycle(db.(nodes := nodes), key, loopId, index, policy, previous).db,
                    CycleOpened(CycleRow(db.next, loopId, index, Intake, policy), previous), key)
  {
    var inserted := db.(
      nodes := nodes,
      cycles := db.cycles + [CycleRow(db.next, loopId, index, Intake, policy)],
      loops := SetLoopIndex(db.loops, loopId, index),
      next := db.next + 1);
    FreshEvent(inserted, CycleKind, db.next, key, CycleCreated(loopId, index, policy, previous));
  }

  lemma NodeChange(db: Db, objective: nat, milestone: string, title: string, statement: string, lane: NodeLane,
                   lifecycle: NodeLifecycle)
    requires IdsBelow(db)
    ensures var row := NodeRow(db.next, objective, title, NodeStatement(milestone, statement), lane, lifecycle);
            Changed(db, InsertNode(db, objective, milestone, title, statement, lane, lifecycle).db,
                    NodeBridged(row, milestone), BridgeKey(milestone))
  {
    var row := NodeRow(db.next, objective, title, NodeStatement(milestone, statement), lane, lifecycle);
    FreshEvent(db.(nodes := db.nodes + [row], next := db.next + 1), NodeKind, db.next, BridgeKey(milestone),
               MilestoneBridged(milestone, objective));
  }

  lemma TaskQuiet(db: Db, nodes: seq<NodeRow>, key: string, node: nat, role: string, skill: string,
                  status: TaskStatus, budget: Option<int>)
    requires SameNodes(db.nodes, nodes)
    ensures Changed(db, InsertTask(db.(nodes := nodes), key, node, role, skill, status, budget).db, Quiet, key)
  {
    var row := TaskRow(db.next, node, role, skill, status, budget);
    var mid := db.(nodes := nodes, tasks := db.tasks + [row], next := db.next + 1);
    SilentEvent(db, mid, TaskKind, db.next, key, TaskCreated(node, status), key);
  }

  lemma SettleQuiet(db: Db, key: string, task: TaskRow, status: TaskStatus, attemptStatus: TaskStatus,
                    nodes: seq<NodeRow>, payload: Payload)
    requires task.id < db.next && Silent(payload) && SameNodes(db.nodes, nodes)
    ensures Changed(db, Settle(db, key, task, status, attemptStatus, nodes, payload).db, Quiet, key)
  {
    var mid := db.(
      tasks := SetTask(db.tasks, task.id, status),
      attempts := FinishAttempts(db.attempts, task.id, attemptStatus),
      nodes := nodes);
    SilentEvent(db, mid, TaskKind, task.id, key, payload, key);
  }

  lemma FoundBelow(tasks: seq<TaskRow>, next: nat, id: nat)
    requires TasksBelow(tasks, next) && Select(tasks, TaskId, id).Some?
    ensures Select(tasks, TaskId, id).value.id == id < next
  {
  }

  lemma CompleteQuiet(db: Db, key: string, id: nat, final: TaskStatus)
    requires IdsBelow(db)
    ensures Changed(db, Complete(db, key, id, final).db, Quiet, key)
  {
    var found := Select(db.tasks, TaskId, id);
    if found.Some? {
      FoundBelow(db.tasks, db.next, id);
      var lifecycle := if final == TaskStatus.Succeeded then Completed else NodeLifecycle.Failed;
      SettleQuiet(db, key, found.value, final, final, SetNode(db.nodes, found.value.node, lifecycle),
                  TaskCompleted(final));
    }
  }

  lemma FailureQuiet(db: Db, key: string, id: nat)
    requires IdsBelow(db)
    ensures Changed(db, RecordFailure(db, key, id).db, Quiet, key)
  {
    var found := Select(db.tasks, TaskId, id);
    if found.Some? {
      FoundBelow(db.tasks, db.next, id);
      SettleQuiet(db, key, found.value, TaskStatus.Failed, TaskStatus.Failed,
                  SetNode(db.nodes, found.value.node, NodeLifecycle.Failed), TaskFailed);
    }
  }

  lemma TimeoutQuiet(db: Db, key: string, id: nat)
    requires IdsBelow(db)
    ensures Changed(db, RecordTimeout(db, key, id).db, Quiet, key)
  {
    var found := Select(db.tasks, TaskId, id);
    if found.Some? {
      FoundBelow(db.tasks, db.next, id);
      SettleQuiet(db, key, found.value, TaskStatus.Failed, TimedOut, db.nodes, TaskTimedOut);
    }
  }

  lemma RequeueQuiet(db: Db, key: string, id: nat)
    requires IdsBelow(db)
    ensures Changed(db, Requeue(db, key, id).db, Quiet, key)
  {
    var found := Select(db.tasks, TaskId, id);
    if found.Some? {
      FoundBelow(db.tasks, db.next, id);
      var mid := db.(
        tasks := SetTask(db.tasks, id, TaskStatus.Queued),
        nodes := SetNode(db.nodes, found.value.node, NodeLifecycle.Queued));
      SilentEvent(db, mid, TaskKind, id, key, RetryScheduled, key);
    }
  }

  lemma ReportQuiet(db: Db, c: Command)
    requires IdsBelow(db) && ReportsOnTask(c)
    ensures Changed(db, Effect(db, c).db, Quiet, c.key)
  {
    match c
    case CompleteTask(key, id, final) => CompleteQuiet(db, key, id, final);
    case IngestFailure(key, id) => FailureQuiet(db, key, id);
    case IngestTimeout(key, id) => TimeoutQuiet(db, key, id);
    case ScheduleRetry(key, id) => RequeueQuiet(db, key, id);
  }

  lemma StartRowQuiet(start: Db, db: Db, row: TaskRow, key: string)
    requires Changed(start, db, Quiet, key) && TasksBelow(db.tasks, db.next)
    ensures Changed(start, StartRow(db, row).db, Quiet, key)
    ensures TasksBelow(StartRow(db, row).db.tasks, StartRow(db, row).db.next)
  {
    if HasQueued(db.tasks, row.id) {
      var index := NextIndex(db.attempts, row.id);
      var mid := db.(
        tasks := StartTask(db.tasks, row.id),
        attempts := db.attempts + [AttemptRow(db.next, row.id, index, TaskStatus.Running, false)],
        nodes := MoveNodes(db.nodes, [row.node], {Proposed, NodeLifecycle.Queued}, NodeLifecycle.Running),
        next := db.next + 1);
      SilentEvent(start, mid, TaskKind, row.id, DispatchKey(row.id), TaskDispatched(db.next, index), key);
    }
  }

  lemma {:induction false} StartRowsQuiet(db: Db, rows: seq<TaskRow>, key: string)
    requires TasksBelow(db.tasks, db.next)
    ensures Changed(db, StartRows(db, rows).db, Quiet, key)
    ensures TasksBelow(StartRows(db, rows).db.tasks, StartRows(db, rows).db.next)
  {
    if rows == [] {
    } else {
      StartRowsQuiet(db, rows[..|rows| - 1], key);
      StartRowQuiet(db, StartRows(db, rows[..|rows| - 1]).db, rows[|rows| - 1], key);
    }
  }

  lemma RoundQuiet(db: Db, key: string, scope: Option<nat>, max: nat)
    requires IdsBelow(db)
    ensures Changed(db, RunRound(db, key, scope, max).db, Quiet, key)
  {
    var rows := Limit(QueuedRows(db, db.tasks, scope), max);
    StartRowsQuiet(db, rows, key);
    var r := StartRows(db, rows);
    SilentEvent(db, r.db.(next := r.db.next + 1), DispatchKind, r.db.next, key,
                RoundCompleted(|r.eventIds|, scope, max), key);
  }

  lemma PhaseChange(db: Db, cycle: nat, from: CyclePhase, to: CyclePhase)
    requires IdsBelow(db) && AtPhase(db.cycles, cycle, from)
    requires !Consumed(db.journal, CycleKind, PhaseKey(cycle, from, to))
    ensures Changed(db, Advance(db, cycle, from, to).db, PhaseMoved(cycle, from, to), PhaseKey(cycle, from, to))
  {
    var c :| c in db.cycles && c.id == cycle && c.phase == from;
    var moved := db.(cycles := MoveCycle(db.cycles, cycle, from, to));
    TransitionJournal(moved, cycle, from, to);
  }

  /** The transition always goes in, the sidecar record if it is new. */
  lemma TwoAppends(db: Db, cycle: nat, from: CyclePhase, to: CyclePhase, key: string, sidecar: string)
    requires cycle < db.next && !Consumed(db.journal, CycleKind, key)
    ensures var journaled := AppendEvent(db, CycleKind, cycle, key, PhaseTransitioned(from, to));
            var after := AppendEvent(journaled, SidecarKind, cycle, sidecar, PhaseRecorded(to, from)).journal;
            Adds(db.journal, after, db.next + 2, CycleKind, cycle, key, PhaseTransitioned(from, to))
  {
    var e := Event(db.next, CycleKind, cycle, key, PhaseTransitioned(from, to));
    assert !Conflicts(db.journal, e);
  }

  lemma TransitionJournal(db: Db, cycle: nat, from: CyclePhase, to: CyclePhase)
    requires cycle < db.next && !Consumed(db.journal, CycleKind, PhaseKey(cycle, from, to))
    ensures var after := Transition(db, cycle, from, to).journal;
            Adds(db.journal, after, db.next + 2, CycleKind, cycle, PhaseKey(cycle, from, to),
                 PhaseTransitioned(from, to))
  {
    TwoAppends(db, cycle, from, to, PhaseKey(cycle, from, to), SidecarKey(cycle, from, to));
  }

  lemma CreationChanges(db: Db, c: Command)
    requires IdsBelow(db) && Creates(c) && !Consumed(db.journal, KindOf(c), KeyOf(c))
    ensures Changed(db, Effect(db, c).db, ChangeOf(db, c), KeyOf(c))
  {
    match c
    case CreateObjective(key, summary, outcome, conversation) =>
      ObjectiveQuiet(db, key, summary, outcome, conversation);
    case CreateLoop(key, objective, track) => LoopChange(db, key, objective, track);
    case CreateCycle(key, loopId, index, policy) =>
      CycleChange(db, db.nodes, key, loopId, index, policy, None);
    case CreateNode(_, objective, milestone, title, statement, lane, lifecycle) =>
      NodeChange(db, objective, milestone, title, statement, lane, lifecycle);
    case CreateTask(key, node, role, skill, status) =>
      TaskQuiet(db, db.nodes, key, node, role, skill, status, None);
  }

  lemma OtherChanges(db: Db, c: Command)
    requires IdsBelow(db) && !Creates(c) && !ReportsOnTask(c) && !Consumed(db.journal, KindOf(c), KeyOf(c))
    ensures Changed(db, Effect(db, c).db, ChangeOf(db, c), KeyOf(c))
  {
    match c
    case DispatchRound(key, scope, max) => RoundQuiet(db, key, scope, max);
    case NextCycle(key, loopId, current, policy, carry) =>
      CycleChange(db, MoveNodes(db.nodes, carry, {NodeLifecycle.Failed, Completed}, NodeLifecycle.Queued),
                  key, loopId, FollowingIndex(db.loops, loopId), policy, Some(current));
    case AutoTask(key, node, role, skill, blocked, budget) =>
      var lifecycle := if blocked then NodeLifecycle.Queued else NodeLifecycle.Running;
      TaskQuiet(db, MoveNodes(db.nodes, [node], {Proposed}, lifecycle), key, node, role, skill,
                if blocked then TaskStatus.Queued else TaskStatus.Running, Some(budget));
    case AdvancePhase(cycle, from, to) =>
      if AtPhase(db.cycles, cycle, from) {
        PhaseChange(db, cycle, from, to);
      }
  }

  /** Every step makes the change told by its guards, and no other. */
  lemma StepChanges(db: Db, c: Command)
    requires IdsBelow(db)
    ensures Changed(db, Step(db, c).db, ChangeOf(db, c), KeyOf(c))
  {
    if !Invalid(c) && !Consumed(db.journal, KindOf(c), KeyOf(c)) {
      if Creates(c) {
        CreationChanges(db, c);
      } else if ReportsOnTask(c) {
        ReportQuiet(db, c);
      } else {
        OtherChanges(db, c);
      }
    }
  }

  lemma JournalStaysBelow(db: Db, next: Db, ch: Change, key: string)
    requires Changed(db, next, ch, key) && JournalBelow(db.journal, db.next)
    ensures JournalBelow(next.journal, next.next)
  {
    var before, after := db.journal, next.journal;
    forall i | 0 <= i < |after| ensures Below(after[i], next.next) {
      assert i < |before| ==> after[i] == before[i];
    }
  }

  lemma CyclesStayBelow(db: Db, next: Db, ch: Change, key: string)
    requires Changed(db, next, ch, key) && CyclesBelow(db.cycles, db.next)
    ensures CyclesBelow(next.cycles, next.next)
  {
  }

  lemma {:induction false} ReachableIds(commands: seq<Command>)
    ensures IdsBelow(Run(EMPTY, commands))
  {
    if commands == [] {
    } else {
      var rest, c := commands[..|commands| - 1], commands[|commands| - 1];
      var db := Run(EMPTY, rest);
      ReachableIds(rest);
      ReachableCoupled(commands);
      StepChanges(db, c);
      JournalStaysBelow(db, Step(db, c).db, ChangeOf(db, c), KeyOf(c));
      CyclesStayBelow(db, Step(db, c).db, ChangeOf(db, c), KeyOf(c));
    }
  }
}
