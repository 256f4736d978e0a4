/** A run with two objectives: each has a loop, a cycle, a node and a queued
    task, and a round for one cycle starts that objective's task only. */
module TwoObjectives {
  import opened Text
  import opened ControlPlane
  import opened CommandSpec
  import opened Attempts
  import opened ExactlyOnce
  import opened FirstRun
  import opened RowLaws
  import opened ScopeLaw

  /** The commands that set up the objective with id `base`, under the given keys. */
  function SetUpOf(base: nat, key: string): seq<Command> {
    [
      CreateObjective(key, "summary", "outcome", None),
      CreateLoop(key, base, "main"),
      CreateCycle(key, base + 2, 1, "policy"),
      CreateNode(key, base, key, "title", "statement", NodeLane.Branch, Proposed),
      CreateTask(key, base + 6, "implementer", "pack", TaskStatus.Queued)
    ]
  }

  /** No event stands under this key, or under the bridge key made of it. */
  predicate KeyFree(journal: seq<Event>, key: string) {
    forall i | 0 <= i < |journal| :: journal[i].key != key && journal[i].key != "milestone-bridge-" + key
  }

  /** From position `from` on, one event for each command so far, under this key. */
  ghost predicate Underway(db: Db, base: nat, from: nat, key: string, kinds: seq<AggregateKind>) {
    && db.next == base + 2 * |kinds| && |db.journal| == from + |kinds| && KeyFree(db.journal[..from], key)
    && (forall i | 0 <= i < |kinds| :: db.journal[from + i].kind == kinds[i])
    && OnlyUnder(db.journal, from, key)
  }

  predicate OnlyUnder(journal: seq<Event>, from: nat, key: string) {
    forall i | from <= i < |journal| :: journal[i].key == key || journal[i].key == "milestone-bridge-" + key
  }

  lemma StillFree(db: Db, base: nat, from: nat, key: string, kinds: seq<AggregateKind>, kind: AggregateKind, k: string)
    requires Underway(db, base, from, key, kinds) && kind !in kinds
    requires k == key || k == "milestone-bridge-" + key
    ensures !Used(db.journal, kind, k)
  {
    forall e <- db.journal ensures !(e.kind == kind && e.key == k) {
      var i :| 0 <= i < |db.journal| && db.journal[i] == e;
      if i < from {
        assert db.journal[..from][i] == e;
      } else {
        assert db.journal[from + (i - from)].kind == kinds[i - from];
        assert kinds[i - from] in kinds;
      }
    }
  }

  lemma GoesOn(before: Db, after: Db, base: nat, from: nat, key: string, kinds: seq<AggregateKind>, e: Event)
    requires Underway(before, base, from, key, kinds)
    requires after.journal == before.journal + [e] && after.next == before.next + 2
    requires e.key == key || e.key == "milestone-bridge-" + key
    ensures Underway(after, base, from, key, kinds + [e.kind])
  {
    assert after.journal[..from] == before.journal[..from];
    forall i | 0 <= i < |kinds + [e.kind]| ensures after.journal[from + i].kind == (kinds + [e.kind])[i] {
      assert i < |kinds| ==> after.journal[from + i] == before.journal[from + i];
    }
  }

  /** The same loops under the same objectives. */
  predicate SameLoops(before: seq<LoopRow>, after: seq<LoopRow>) {
    && |after| == |before|
    && forall i | 0 <= i < |before| :: after[i].id == before[i].id && after[i].objective == before[i].objective
  }

  lemma ObjectiveCreates(db: Db, base: nat, from: nat, key: string)
    requires Underway(db, base, from, key, [])
    ensures var next := Step(db, SetUpOf(base, key)[0]).db;
            && Underway(next, base, from, key, [ObjectiveKind])
            && next == db.(objectives := db.objectives + [ObjectiveRow(base, "summary")],
                           journal := next.journal, next := next.next)
  {
    var c := SetUpOf(base, key)[0];
    assert c.summary[0] == 's' && c.outcome[0] == 'o';
    StillFree(db, base, from, key, [], ObjectiveKind, key);
    ObjectiveLaw(db, key, "summary", "outcome", None);
    GoesOn(db, Step(db, c).db, base, from, key, [], Step(db, c).db.journal[|db.journal|]);
  }

  lemma LoopCreates(db: Db, base: nat, from: nat, key: string)
    requires Underway(db, base, from, key, [ObjectiveKind])
    requires exists o <- db.objectives :: o.id == base
    ensures var next := Step(db, SetUpOf(base, key)[1]).db;
            && Underway(next, base, from, key, [ObjectiveKind, LoopKind])
            && next == db.(loops := db.loops + [LoopRow(base + 2, base, 0, "main")],
                           journal := next.journal, next := next.next)
  {
    var c := SetUpOf(base, key)[1];
    assert c == CreateLoop(key, base, "main");
    StillFree(db, base, from, key, [ObjectiveKind], LoopKind, key);
    LoopLaw(db, key, base, "main");
    var next := Step(db, c).db;
    GoesOn(db, next, base, from, key, [ObjectiveKind], next.journal[|db.journal|]);
  }

  lemma CycleCreates(db: Db, base: nat, from: nat, key: string)
    requires Underway(db, base, from, key, [ObjectiveKind, LoopKind])
    requires exists l <- db.loops :: l.id == base + 2
    ensures var next := Step(db, SetUpOf(base, key)[2]).db;
            && Underway(next, base, from, key, [ObjectiveKind, LoopKind, CycleKind])
            && SameLoops(db.loops, next.loops)
            && next == db.(cycles := db.cycles + [CycleRow(base + 4, base + 2, 1, Intake, "policy")],
                           loops := next.loops, journal := next.journal, next := next.next)
  {
    var c := SetUpOf(base, key)[2];
    assert c == CreateCycle(key, base + 2, 1, "policy");
    StillFree(db, base, from, key, [ObjectiveKind, LoopKind], CycleKind, key);
    CycleLaw(db, key, base + 2, 1, "policy");
    var next := Step(db, c).db;
    GoesOn(db, next, base, from, key, [ObjectiveKind, LoopKind], next.journal[|db.journal|]);
  }

  lemma NodeCreates(db: Db, base: nat, from: nat, key: string)
    requires Underway(db, base, from, key, [ObjectiveKind, LoopKind, CycleKind])
    requires exists o <- db.objectives :: o.id == base
    ensures var next := Step(db, SetUpOf(base, key)[3]).db;
            && Underway(next, base, from, key, [ObjectiveKind, LoopKind, CycleKind, NodeKind])
            && |next.nodes| == |db.nodes| + 1 && db.nodes <= next.nodes
            && next.nodes[|db.nodes|].id == base + 6 && next.nodes[|db.nodes|].objective == base
            && next == db.(nodes := next.nodes, journal := next.journal, next := next.next)
  {
    StillFree(db, base, from, key, [ObjectiveKind, LoopKind, CycleKind], NodeKind, "milestone-bridge-" + key);
    RowLaws.BridgeLaw(db, key, base, key, "title", "statement", NodeLane.Branch, Proposed);
    var next := Step(db, SetUpOf(base, key)[3]).db;
    GoesOn(db, next, base, from, key, [ObjectiveKind, LoopKind, CycleKind], next.journal[|db.journal|]);
  }

  lemma TaskCreates(db: Db, base: nat, from: nat, key: string)
    requires Underway(db, base, from, key, [ObjectiveKind, LoopKind, CycleKind, NodeKind])
    requires exists n <- db.nodes :: n.id == base + 6
    ensures var next := Step(db, SetUpOf(base, key)[4]).db;
            && Underway(next, base, from, key, [ObjectiveKind, LoopKind, CycleKind, NodeKind, TaskKind])
            && next == db.(tasks := db.tasks + [TaskRow(base + 8, base + 6, "implementer", "pack", TaskStatus.Queued,
                                                        None)],
                           journal := next.journal, next := next.next)
  {
    StillFree(db, base, from, key, [ObjectiveKind, LoopKind, CycleKind, NodeKind], TaskKind, key);
    TaskLaw(db, key, base + 6, "implementer", "pack", TaskStatus.Queued);
    var next := Step(db, SetUpOf(base, key)[4]).db;
    GoesOn(db, next, base, from, key, [ObjectiveKind, LoopKind, CycleKind, NodeKind], next.journal[|db.journal|]);
  }

  const KINDS: seq<AggregateKind> := [ObjectiveKind, LoopKind, CycleKind, NodeKind, TaskKind]

  /** What the five commands add; older loops keep their place under their objective. */
  ghost predicate SetUpDone(db: Db, next: Db, base: nat) {
    && next.tasks == db.tasks + [TaskRow(base + 8, base + 6, "implementer", "pack", TaskStatus.Queued, None)]
    && next.attempts == db.attempts
    && |next.nodes| == |db.nodes| + 1 && db.nodes <= next.nodes
    && next.nodes[|db.nodes|].id == base + 6 && next.nodes[|db.nodes|].objective == base
    && next.cycles == db.cycles + [CycleRow(base + 4, base + 2, 1, Intake, "policy")]
    && SameLoops(db.loops + [LoopRow(base + 2, base, 0, "main")], next.loops)
  }

  lemma RunNext(db: Db, commands: seq<Command>, n: nat)
    requires n < |commands|
    ensures Run(db, commands[..n + 1]) == Step(Run(db, commands[..n]), commands[n]).db
  {
    assert commands[..n + 1][..n] == commands[..n];
  }

  lemma FirstTwo(db: Db, base: nat, from: nat, key: string)
    requires Underway(db, base, from, key, [])
    ensures var next := Run(db, SetUpOf(base, key)[..2]);
            && Underway(next, base, from, key, [ObjectiveKind, LoopKind])
            && next.loops == db.loops + [LoopRow(base + 2, base, 0, "main")] && next.cycles == db.cycles
            && next.objectives == db.objectives + [ObjectiveRow(base, "summary")]
            && next.nodes == db.nodes && next.tasks == db.tasks && next.attempts == db.attempts
  {
    var cs := SetUpOf(base, key);
    assert cs[..0] == [];
    RunNext(db, cs, 0);
    ObjectiveCreates(db, base, from, key);
    var first := Run(db, cs[..1]);
    assert first.objectives[|db.objectives|] in first.objectives;
    RunNext(db, cs, 1);
    LoopCreates(first, base, from, key);
  }

  lemma FirstThree(db: Db, base: nat, from: nat, key: string)
    requires Underway(db, base, from, key, [])
    ensures var next := Run(db, SetUpOf(base, key)[..3]);
            && Underway(next, base, from, key, [ObjectiveKind, LoopKind, CycleKind])
            && next.cycles == db.cycles + [CycleRow(base + 4, base + 2, 1, Intake, "policy")]
            && next.objectives == db.objectives + [ObjectiveRow(base, "summary")]
            && next.nodes == db.nodes && next.tasks == db.tasks && next.attempts == db.attempts
            && SameLoops(db.loops + [LoopRow(base + 2, base, 0, "main")], next.loops)
  {
    FirstTwo(db, base, from, key);
    var second := Run(db, SetUpOf(base, key)[..2]);
    assert second.loops[|db.loops|] in second.loops;
    RunNext(db, SetUpOf(base, key), 2);
    CycleCreates(second, base, from, key);
  }

  lemma LastTwo(db: Db, base: nat, from: nat, key: string)
    requires var third := Run(db, SetUpOf(base, key)[..3]);
             && Underway(third, base, from, key, [ObjectiveKind, LoopKind, CycleKind])
             && exists o <- third.objectives :: o.id == base
    ensures var third, next := Run(db, SetUpOf(base, key)[..3]), Run(db, SetUpOf(base, key));
            && Underway(next, base, from, key, KINDS)
            && next.tasks == third.tasks
               + [TaskRow(base + 8, base + 6, "implementer", "pack", TaskStatus.Queued, None)]
            && |next.nodes| == |third.nodes| + 1 && third.nodes <= next.nodes
            && next.nodes[|third.nodes|].id == base + 6 && next.nodes[|third.nodes|].objective == base
            && next.cycles == third.cycles && next.loops == third.loops && next.attempts == third.attempts
  {
    var cs := SetUpOf(base, key);
    var third := Run(db, cs[..3]);
    RunNext(db, cs, 3);
    NodeCreates(third, base, from, key);
    var fourth := Run(db, cs[..4]);
    assert fourth.nodes[|third.nodes|] in fourth.nodes;
    RunNext(db, cs, 4);
    assert cs[..5] == cs;
    TaskCreates(fourth, base, from, key);
  }

  lemma SetUpRuns(db: Db, base: nat, from: nat, key: string)
    requires Underway(db, base, from, key, [])
    ensures var next := Run(db, SetUpOf(base, key));
            Underway(next, base, from, key, KINDS) && SetUpDone(db, next, base)
  {
    FirstThree(db, base, from, key);
    var third := Run(db, SetUpOf(base, key)[..3]);
    assert third.objectives[|db.objectives|] in third.objectives;
    LastTwo(db, base, from, key);
  }

  const BOTH := SetUpOf(0, "a") + SetUpOf(10, "b")

  lemma SecondKeyFree(journal: seq<Event>)
    requires OnlyUnder(journal, 0, "a")
    ensures KeyFree(journal, "b")
  {
    var a, b := "milestone-bridge-a", "milestone-bridge-b";
    assert a == "milestone-bridge-" + "a" && b == "milestone-bridge-" + "b";
    assert a[|a| - 1] != b[|b| - 1];
  }

  /** Task 8 belongs to objective 0 with cycle 4, task 18 to objective 10 with cycle 14. */
  ghost predicate TwoTasks(db: Db) {
    && |db.tasks| == 2 && |db.nodes| == 2 && |db.cycles| == 2 && |db.loops| == 2 && db.attempts == []
    && db.tasks[0].id == 8 && db.tasks[0].node == 6 && db.tasks[0].status == TaskStatus.Queued
    && db.tasks[1].id == 18 && db.tasks[1].node == 16 && db.tasks[1].status == TaskStatus.Queued
    && db.nodes[0].id == 6 && db.nodes[0].objective == 0 && db.nodes[1].id == 16 && db.nodes[1].objective == 10
    && db.loops[0].id == 2 && db.loops[0].objective == 0 && db.loops[1].id == 12 && db.loops[1].objective == 10
    && db.cycles[0].id == 4 && db.cycles[0].loopId == 2 && db.cycles[1].id == 14 && db.cycles[1].loopId == 12
    && forall i | 0 <= i < |db.journal| :: db.journal[i].kind != DispatchKind
  }

  lemma NoRounds(db: Db, first: Db)
    requires Underway(first, 0, 0, "a", KINDS) && Underway(db, 10, 5, "b", KINDS) && first.journal == db.journal[..5]
    ensures forall i | 0 <= i < |db.journal| :: db.journal[i].kind != DispatchKind
  {
    forall i | 0 <= i < |db.journal| ensures db.journal[i].kind != DispatchKind {
      if i < 5 {
        assert first.journal[0 + i].kind == KINDS[i];
      } else {
        assert db.journal[5 + (i - 5)].kind == KINDS[i - 5];
      }
    }
  }

  lemma TwoRows(first: Db, second: Db)
    requires SetUpDone(EMPTY, first, 0) && SetUpDone(first, second, 10)
    requires forall i | 0 <= i < |second.journal| :: second.journal[i].kind != DispatchKind
    ensures TwoTasks(second)
  {
  }

  lemma SecondSetUp(first: Db)
    requires SetUpDone(EMPTY, first, 0) && Underway(first, 0, 0, "a", KINDS)
    ensures TwoTasks(Run(first, SetUpOf(10, "b")))
  {
    var second := Run(first, SetUpOf(10, "b"));
    SecondKeyFree(first.journal);
    assert first.journal[..5] == first.journal;
    assert Underway(first, 10, 5, "b", []);
    SetUpRuns(first, 10, 5, "b");
    RunJournal(first, SetUpOf(10, "b"));
    NoRounds(second, first);
    TwoRows(first, second);
  }

  lemma TwoSetUp()
    ensures TwoTasks(Run(EMPTY, BOTH))
  {
    SetUpRuns(EMPTY, 0, 0, "a");
    RunSplit(EMPTY, SetUpOf(0, "a"), SetUpOf(10, "b"));
    SecondSetUp(Run(EMPTY, SetUpOf(0, "a")));
  }

  lemma EachItsOwn(db: Db)
    requires TwoTasks(db)
    ensures OfCycle(db, db.tasks[0], 4) && !OfCycle(db, db.tasks[1], 4)
    ensures OfCycle(db, db.tasks[1], 14) && !OfCycle(db, db.tasks[0], 14)
  {
    assert db.nodes[0].objective == db.loops[0].objective && db.cycles[0].id == 4;
    assert db.nodes[1].objective == db.loops[1].objective && db.cycles[1].id == 14;
  }

  lemma OlderOfTwo(db: Db, scope: Option<nat>)
    requires |db.tasks| == 2
    ensures Older(db, scope, 0) == 0 && Older(db, scope, 1) == if Candidate(db, db.tasks[0], scope) then 1 else 0
  {
  }

  lemma ScopedRoundOn(db: Db)
    requires Coupled(db) && TwoTasks(db)
    ensures Step(db, DispatchRound("d", Some(14), 5)).db.tasks
            == [db.tasks[0], db.tasks[1].(status := TaskStatus.Running)]
  {
    EachItsOwn(db);
    OlderOfTwo(db, Some(14));
    assert !Used(db.journal, DispatchKind, "d");
    ScopedRoundLaw(db, "d", Some(14), 5);
  }

  lemma OpenRoundOn(db: Db)
    requires Coupled(db) && TwoTasks(db)
    ensures Step(db, DispatchRound("d", None, 1)).db.tasks
            == [db.tasks[0].(status := TaskStatus.Running), db.tasks[1]]
  {
    OlderOfTwo(db, None);
    assert !Used(db.journal, DispatchKind, "d");
    ScopedRoundLaw(db, "d", None, 1);
  }

  /** A round for cycle 14 passes over the older task, which is under another
      objective; a round without a scope takes the oldest. */
  lemma ScopedRoundStartsOwn()
    ensures var db := Run(EMPTY, BOTH);
            && |db.tasks| == 2
            && Step(db, DispatchRound("d", Some(14), 5)).db.tasks
               == [db.tasks[0], db.tasks[1].(status := TaskStatus.Running)]
            && Step(db, DispatchRound("d", None, 1)).db.tasks
               == [db.tasks[0].(status := TaskStatus.Running), db.tasks[1]]
  {
    TwoSetUp();
    ReachableCoupled(BOTH);
    ScopedRoundOn(Run(EMPTY, BOTH));
    OpenRoundOn(Run(EMPTY, BOTH));
  }
}
