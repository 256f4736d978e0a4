/** The run from the empty store that concrete runs start from: an objective, a
    loop, a cycle, a node, and the tick's task for that node. */
module FirstRun {
  import opened Text
  import opened ControlPlane
  import opened CommandSpec
  import opened ExactlyOnce
  import opened TableChanges
  import opened CycleNumbers

  lemma RunMore(commands: seq<Command>, c: Command)
    ensures Run(EMPTY, commands + [c]) == Step(Run(EMPTY, commands), c).db
  {
    assert (commands + [c])[..|commands|] == commands;
  }

  lemma RunTwo(a: Command, b: Command)
    ensures Run(EMPTY, [a, b]) == Step(Step(EMPTY, a).db, b).db
  {
    RunOne(EMPTY, a);
    RunMore([a], b);
    assert [a] + [b] == [a, b];
  }

  const OBJECTIVE := CreateObjective("o", "summary", "outcome", None)
  const LOOP := CreateLoop("l", 0, "main")
  const CYCLE := CreateCycle("c", 2, 1, "policy")
  const NODE := CreateNode("n", 0, "m", "title", "statement", NodeLane.Branch, Proposed)

  /** The tick's task for node 6 in cycle 4; it waits for a dependency. */
  function Task(budget: int): Command {
    AutoTask(AutoTaskKey(4, 6), 6, "implementer", "pack", true, budget)
  }

  function TaskIn(status: TaskStatus, budget: int): TaskRow {
    TaskRow(8, 6, "implementer", "pack", status, Some(budget))
  }

  /** One objective, no task, and one event of each of these kinds. */
  ghost predicate Prepared(db: Db, kinds: seq<AggregateKind>) {
    && db.objectives == [ObjectiveRow(0, "summary")] && db.tasks == [] && db.attempts == []
    && db.next == 2 * |kinds| && |db.journal| == |kinds|
    && (forall i | 0 <= i < |kinds| :: db.journal[i].kind == kinds[i])
    && if |kinds| == 4 then IsNodeSix(db.nodes) else db.nodes == []
  }

  predicate IsNodeSix(nodes: seq<NodeRow>) {
    |nodes| == 1 && nodes[0].id == 6
  }

  lemma ObjectiveStep()
    ensures var db := Step(EMPTY, OBJECTIVE).db; Prepared(db, [ObjectiveKind]) && db.loops == [] && db.cycles == []
  {
    assert OBJECTIVE.summary[0] == 's' && OBJECTIVE.outcome[0] == 'o';
    assert OBJECTIVE.summary[0] in OBJECTIVE.summary && OBJECTIVE.outcome[0] in OBJECTIVE.outcome;
  }

  lemma LoopStep(db: Db)
    requires Prepared(db, [ObjectiveKind]) && db.loops == [] && db.cycles == []
    ensures var next := Step(db, LOOP).db;
            && Prepared(next, [ObjectiveKind, LoopKind])
            && next.loops == [LoopRow(2, 0, 0, "main")] && next.cycles == []
  {
  }

  lemma LoopPrepared()
    ensures var db := Run(EMPTY, [OBJECTIVE, LOOP]);
            && Prepared(db, [ObjectiveKind, LoopKind])
            && db.loops == [LoopRow(2, 0, 0, "main")] && db.cycles == []
  {
    RunTwo(OBJECTIVE, LOOP);
    ObjectiveStep();
    LoopStep(Step(EMPTY, OBJECTIVE).db);
  }

  lemma SetUp()
    ensures var db := Run(EMPTY, [OBJECTIVE, LOOP]);
            && db.loops == [LoopRow(2, 0, 0, "main")] && db.cycles == [] && db.next == 4
            && |db.journal| == 2 && db.journal[0].kind == ObjectiveKind && db.journal[1].kind == LoopKind
  {
    LoopPrepared();
  }

  /** A cycle command under a new key on loop 2 opens cycle 4. */
  lemma OpensCycle(db: Db, index: I32)
    requires db.loops == [LoopRow(2, 0, 0, "main")] && db.next == 4 && |db.journal| == 2
    requires db.journal[0].kind == ObjectiveKind && db.journal[1].kind == LoopKind
    ensures ChangeOf(db, CreateCycle("c", 2, index, "policy"))
            == CycleOpened(CycleRow(4, 2, index, Intake, "policy"), None)
    ensures AsksForNextIndex(db, CreateCycle("c", 2, index, "policy")) <==> index == 1
  {
  }

  // The cycle, the node and the task

  lemma CycleStep(db: Db)
    requires Prepared(db, [ObjectiveKind, LoopKind]) && db.loops == [LoopRow(2, 0, 0, "main")]
    ensures Prepared(Step(db, CYCLE).db, [ObjectiveKind, LoopKind, CycleKind])
  {
  }

  lemma NodeStep(db: Db)
    requires Prepared(db, [ObjectiveKind, LoopKind, CycleKind])
    ensures Prepared(Step(db, NODE).db, [ObjectiveKind, LoopKind, CycleKind, NodeKind])
  {
  }

  /** The task is queued, and its creation is the only event about tasks. */
  ghost predicate Created(db: Db, budget: int) {
    && db.tasks == [TaskIn(TaskStatus.Queued, budget)] && db.attempts == [] && db.next == 10
    && |db.journal| == 5 && Led(db.journal) && IsNodeSix(db.nodes)
  }

  /** Four events that are not about tasks or rounds, and then the creation. */
  ghost predicate Led(journal: seq<Event>) {
    && |journal| >= 5 && journal[4] == Event(9, TaskKind, 8, AutoTaskKey(4, 6), TaskCreated(6, TaskStatus.Queued))
    && forall i | 0 <= i < 4 :: journal[i].kind != TaskKind && journal[i].kind != DispatchKind
  }

  lemma TaskStep(db: Db, budget: int)
    requires Prepared(db, [ObjectiveKind, LoopKind, CycleKind, NodeKind])
    ensures Created(Step(db, Task(budget)).db, budget)
  {
  }

  const SET_UP := [OBJECTIVE, LOOP, CYCLE, NODE]

  function Begun(budget: int): seq<Command> {
    SET_UP + [Task(budget)]
  }

  lemma CyclePrepared()
    ensures Prepared(Run(EMPTY, [OBJECTIVE, LOOP, CYCLE]), [ObjectiveKind, LoopKind, CycleKind])
  {
    LoopPrepared();
    RunMore([OBJECTIVE, LOOP], CYCLE);
    CycleStep(Run(EMPTY, [OBJECTIVE, LOOP]));
    assert [OBJECTIVE, LOOP] + [CYCLE] == [OBJECTIVE, LOOP, CYCLE];
  }

  lemma NodePrepared()
    ensures Prepared(Run(EMPTY, SET_UP), [ObjectiveKind, LoopKind, CycleKind, NodeKind])
  {
    CyclePrepared();
    RunMore([OBJECTIVE, LOOP, CYCLE], NODE);
    NodeStep(Run(EMPTY, [OBJECTIVE, LOOP, CYCLE]));
    assert [OBJECTIVE, LOOP, CYCLE] + [NODE] == SET_UP;
  }

  lemma TaskCreatedFirst(budget: int)
    ensures Created(Run(EMPTY, Begun(budget)), budget)
  {
    NodePrepared();
    RunMore(SET_UP, Task(budget));
    TaskStep(Run(EMPTY, SET_UP), budget);
  }

  // Its first dispatch

  const START := DispatchRound("d", None, 1)

  lemma TaskKeys()
    ensures AutoTaskKey(4, 6)[0] == 'a' && DispatchKey(8)[0] == 'd' && |AutoTaskKey(4, 6)| > 1 && |DispatchKey(8)| > 1
  {
  }

  /** Running its first attempt; the round left a dispatch and a closing event. */
  ghost predicate Dispatched(db: Db, budget: int) {
    && db.tasks == [TaskIn(TaskStatus.Running, budget)]
    && |db.attempts| == 1 && db.attempts[0].task == 8 && db.attempts[0].status.Running?
    && |db.journal| == 7 && Led(db.journal) && db.journal[6].kind == DispatchKind && db.journal[6].key == "d"
    && IsFirstDispatch(db.journal[5])
  }

  predicate IsFirstDispatch(e: Event) {
    e.kind == TaskKind && e.aggregate == 8 && e.key == DispatchKey(8) && e.payload.TaskDispatched?
  }

  /** A round of one over this store starts the one task. */
  lemma OneQueued(db: Db, row: TaskRow)
    requires db.tasks == [row] && row.status == TaskStatus.Queued
    ensures Limit(QueuedRows(db, db.tasks, None), 1) == [row]
    ensures StartRows(db, [row]) == StartRow(db, row)
  {
    assert db.tasks[..0] == [] && [row][..0] == [];
    assert StartRows(db, []) == Round(db, []);
  }

  lemma StartRowFirst(db: Db, budget: int)
    requires Created(db, budget)
    ensures var next := StartRow(db, TaskIn(TaskStatus.Queued, budget)).db;
            && next.tasks == [TaskIn(TaskStatus.Running, budget)]
            && |next.attempts| == 1 && next.attempts[0].task == 8 && next.attempts[0].status.Running?
            && |next.journal| == 6 && Led(next.journal) && IsFirstDispatch(next.journal[5])
  {
    TaskKeys();
    assert db.tasks[0] == TaskIn(TaskStatus.Queued, budget);
    assert HasQueued(db.tasks, 8);
  }

  lemma StartStep(db: Db, budget: int)
    requires Created(db, budget)
    ensures Dispatched(Step(db, START).db, budget)
  {
    OneQueued(db, TaskIn(TaskStatus.Queued, budget));
    StartRowFirst(db, budget);
  }

  lemma TaskDispatchedFirst(budget: int)
    ensures Dispatched(Run(EMPTY, Begun(budget) + [START]), budget)
  {
    TaskCreatedFirst(budget);
    RunMore(Begun(budget), START);
    StartStep(Run(EMPTY, Begun(budget)), budget);
  }
}
