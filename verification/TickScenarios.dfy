/** Two concrete runs of the tick: a cycle dispatched without review, and one
    whose plan gate was overridden. */
module TickScenarios {
  import opened Text
  import opened ControlPlane
  import opened CommandSpec
  import opened TableChanges
  import opened StepEvents
  import opened JournalFold
  import opened PhaseRuns
  import opened PhaseHistory
  import opened FirstRun
  import opened PhasePaths
  import opened TickSpec
  import opened TickRuns
  import opened TickPaths

  function Deliveries(commands: seq<Command>): seq<TickStep> {
    if commands == [] then []
    else Deliveries(commands[..|commands| - 1]) + [Deliver(commands[|commands| - 1])]
  }

  lemma TicksMore(steps: seq<TickStep>, s: TickStep)
    ensures Ticks(EMPTY, steps + [s]) == Tick(Ticks(EMPTY, steps), s)
    ensures Forced(steps + [s]) == Forced(steps) + if Forces(Ticks(EMPTY, steps), s) then {s.cycle} else {}
  {
    assert (steps + [s])[..|steps|] == steps;
  }

  /** Without the tick's own writes a run is a run of commands, with no override. */
  lemma {:induction false} DeliveriesRun(commands: seq<Command>)
    ensures Ticks(EMPTY, Deliveries(commands)) == Run(EMPTY, commands) && Forced(Deliveries(commands)) == {}
  {
    if commands == [] {
    } else {
      DeliveriesRun(commands[..|commands| - 1]);
      TicksMore(Deliveries(commands[..|commands| - 1]), Deliver(commands[|commands| - 1]));
    }
  }

  /** Only cycle 4 of loop 2 exists, in this phase, and cycle events have these keys. */
  ghost predicate CycleAt(db: Db, phase: CyclePhase, keys: set<string>) {
    && db.cycles == [CycleRow(4, 2, 1, phase, "policy")] && |db.loops| == 1 && db.loops[0].id == 2
    && CycleKeysIn(db.journal, keys)
  }

  ghost predicate CycleKeysIn(journal: seq<Event>, keys: set<string>) {
    forall i | 0 <= i < |journal| && journal[i].kind == CycleKind :: journal[i].key in keys
  }

  lemma {:induction false} NoEvaluations(journal: seq<Event>, cycle: nat)
    requires forall i | 0 <= i < |journal| && journal[i].aggregate == cycle :: !journal[i].payload.GateEvaluated?
    ensures Evaluations(journal, cycle) == 0
  {
    if journal == [] {
    } else {
      NoEvaluations(journal[..|journal| - 1], cycle);
    }
  }

  lemma FreshCycle(db: Db, next: Db, ch: Change)
    requires Changed(db, next, ch, "c") && ch.CycleOpened? && ch.cycle.id == 4
    requires JournalBelow(db.journal, 4) && db.loops == [LoopRow(2, 0, 0, "main")]
    requires AddsOne(db.journal, next.journal, CYCLE)
    ensures Evaluations(next.journal, 4) == 0 && |next.loops| == 1 && next.loops[0].id == 2
  {
    forall i | 0 <= i < |next.journal|
      ensures next.journal[i].aggregate == 4 ==> !next.journal[i].payload.GateEvaluated?
    {
      assert i < |db.journal| ==> next.journal[i] == db.journal[i];
    }
    NoEvaluations(next.journal, 4);
  }

  lemma CycleFour(db: Db)
    requires IdsBelow(db) && db.loops == [LoopRow(2, 0, 0, "main")] && db.next == 4
    requires |db.journal| == 2 && db.journal[0].kind == ObjectiveKind && db.journal[1].kind == LoopKind
    ensures var next := Step(db, CYCLE).db;
            Evaluations(next.journal, 4) == 0 && |next.loops| == 1 && next.loops[0].id == 2
  {
    OpensCycle(db, 1);
    StepChanges(db, CYCLE);
    CreationAddsOne(db, CYCLE);
    FreshCycle(db, Step(db, CYCLE).db, ChangeOf(db, CYCLE));
  }

  lemma CycleCreated()
    ensures var db := Run(EMPTY, [OBJECTIVE, LOOP, CYCLE]);
            Evaluations(db.journal, 4) == 0 && |db.loops| == 1 && db.loops[0].id == 2
  {
    SetUp();
    ReachableIds([OBJECTIVE, LOOP]);
    RunMore([OBJECTIVE, LOOP], CYCLE);
    assert [OBJECTIVE, LOOP] + [CYCLE] == [OBJECTIVE, LOOP, CYCLE];
    CycleFour(Run(EMPTY, [OBJECTIVE, LOOP]));
  }

  /** An objective, a loop and cycle 4. */
  const CYCLE_SET_UP := Deliveries([OBJECTIVE, LOOP, CYCLE])

  lemma CycleSetUp()
    ensures CycleAt(Ticks(EMPTY, CYCLE_SET_UP), Intake, {"c"})
    ensures Evaluations(Ticks(EMPTY, CYCLE_SET_UP).journal, 4) == 0
    ensures Forced(CYCLE_SET_UP) == {}
  {
    DeliveriesRun([OBJECTIVE, LOOP, CYCLE]);
    PathStarts();
    CycleCreated();
  }

  lemma FreeKey(journal: seq<Event>, keys: set<string>, key: string)
    requires CycleKeysIn(journal, keys) && key !in keys
    ensures !Consumed(journal, CycleKind, key)
  {
  }

  /** The keys met in the two runs are different. */
  lemma KeysDiffer(from: CyclePhase, to: CyclePhase)
    ensures IntakeKey(4) !in {"c"}
    ensures PhaseKey(4, from, to) !in {"c", IntakeKey(4), EvaluationKey(4, 1), ForceKey(4, true)}
  {
    assert PhaseKey(4, from, to)[1] == 'h' && IntakeKey(4)[1] == 'd' && |IntakeKey(4)| > 1;
    assert EvaluationKey(4, 1)[1] == 'l' && ForceKey(4, true)[1] == 'l' && |PhaseKey(4, from, to)| > 1;
  }

  /** One event under a new key of cycle 4, which is not an evaluation. */
  lemma OneMoreEvent(db: Db, key: string, payload: Payload, keys: set<string>)
    requires CycleKeysIn(db.journal, keys) && key !in keys
    ensures var next := AppendEvent(db, CycleKind, 4, key, payload);
            && next.journal == db.journal + [Event(db.next, CycleKind, 4, key, payload)]
            && CycleKeysIn(next.journal, keys + {key})
            && Evaluations(next.journal, 4) == Evaluations(db.journal, 4) + if payload.GateEvaluated? then 1 else 0
  {
    FreeKey(db.journal, keys, key);
    var e := Event(db.next, CycleKind, 4, key, payload);
    assert (db.journal + [e])[..|db.journal|] == db.journal;
  }

  lemma IntakeAt(db: Db)
    requires CycleAt(db, Intake, {"c"}) && Evaluations(db.journal, 4) == 0
    ensures var next := Tick(db, AdvanceIntake(4));
            && CycleAt(next, PlanElaboration, {"c", IntakeKey(4)}) && Evaluations(next.journal, 4) == 0
            && Started(next.journal, 4)
  {
    KeysDiffer(Intake, Intake);
    FreeKey(db.journal, {"c"}, IntakeKey(4));
    assert db.cycles[0] in db.cycles;
    var moved := db.(cycles := MoveCycle(db.cycles, 4, Intake, PlanElaboration));
    OneMoreEvent(moved, IntakeKey(4), PhaseTransitioned(Intake, PlanElaboration), {"c"});
    assert {"c"} + {IntakeKey(4)} == {"c", IntakeKey(4)};
    var e := Event(db.next, CycleKind, 4, IntakeKey(4), PhaseTransitioned(Intake, PlanElaboration));
    assert e in db.journal + [e] && MentionsElaboration(e, 4);
  }

  lemma ElaboratesAt(db: Db, keys: set<string>)
    requires CycleAt(db, PlanElaboration, keys)
    ensures Elaborating(db, 4)
  {
    assert db.loops[0] in db.loops && InPhaseOfLoop(db.cycles[0], db.loops, 4);
  }

  lemma EvaluateAt(db: Db, keys: set<string>)
    requires CycleAt(db, PlanElaboration, keys) && Evaluations(db.journal, 4) == 0 && EvaluationKey(4, 1) !in keys
    ensures CycleAt(Tick(db, EvaluateGate(4)), PlanElaboration, keys + {EvaluationKey(4, 1)})
  {
    ElaboratesAt(db, keys);
    OneMoreEvent(db, EvaluationKey(4, 1), GateEvaluated(1), keys);
  }

  lemma ForceAt(db: Db, keys: set<string>)
    requires CycleAt(db, PlanElaboration, keys) && Evaluations(db.journal, 4) == 0 && Started(db.journal, 4)
    requires ForceKey(4, true) !in keys
    ensures Forces(db, ForceGate(4, true))
    ensures CycleAt(Tick(db, ForceGate(4, true)), Decomposition, keys + {ForceKey(4, true)})
  {
    ElaboratesAt(db, keys);
    OneMoreEvent(db.(cycles := SetPhase(db.cycles, 4, Decomposition)), ForceKey(4, true), GateForced(true), keys);
  }

  lemma MoreKeys(before: seq<Event>, after: seq<Event>, keys: set<string>, key: string)
    requires before <= after && CycleKeysIn(before, keys)
    requires forall k | |before| <= k < |after| && after[k].kind == CycleKind :: after[k].key == key
    ensures CycleKeysIn(after, keys + {key})
  {
    assert forall i | 0 <= i < |before| :: after[i] == before[i];
  }

  lemma AdvanceAt(db: Db, from: CyclePhase, to: CyclePhase, keys: set<string>)
    requires IdsBelow(db) && CycleAt(db, from, keys) && PhaseKey(4, from, to) !in keys
    ensures CycleAt(Tick(db, Deliver(AdvancePhase(4, from, to))), to, keys + {PhaseKey(4, from, to)})
  {
    var c := AdvancePhase(4, from, to);
    FreeKey(db.journal, keys, PhaseKey(4, from, to));
    MoveChange(db, c, CycleRow(4, 2, 1, from, "policy"));
    StepChanges(db, c);
    StepAddsEvents(db, c);
    NewCycleKeys(db.journal, Step(db, c).db.journal, c);
    MoreKeys(db.journal, Step(db, c).db.journal, keys, KeyOf(c));
  }

  const AFTER_INTAKE := CYCLE_SET_UP + [AdvanceIntake(4)]

  lemma IntakeDone()
    ensures var db := Ticks(EMPTY, AFTER_INTAKE);
            && CycleAt(db, PlanElaboration, {"c", IntakeKey(4)}) && Evaluations(db.journal, 4) == 0
            && Started(db.journal, 4)
    ensures Forced(AFTER_INTAKE) == {}
  {
    CycleSetUp();
    TicksMore(CYCLE_SET_UP, AdvanceIntake(4));
    IntakeAt(Ticks(EMPTY, CYCLE_SET_UP));
  }

  const SATISFIED := AFTER_INTAKE + [EvaluateGate(4)]
  const DECOMPOSED := SATISFIED + [Deliver(AdvancePhase(4, PlanElaboration, Decomposition))]
  const UNREVIEWED := DECOMPOSED + [Deliver(AdvancePhase(4, Decomposition, Dispatch))]

  const OVERRIDDEN := AFTER_INTAKE + [ForceGate(4, true)]
  const FORCED := OVERRIDDEN + [Deliver(AdvancePhase(4, Decomposition, Dispatch))]

  lemma AdvanceMore(steps: seq<TickStep>, from: CyclePhase, to: CyclePhase, keys: set<string>)
    requires CycleAt(Ticks(EMPTY, steps), from, keys) && PhaseKey(4, from, to) !in keys
    ensures var more := steps + [Deliver(AdvancePhase(4, from, to))];
            CycleAt(Ticks(EMPTY, more), to, keys + {PhaseKey(4, from, to)}) && Forced(more) == Forced(steps)
  {
    TicksMore(steps, Deliver(AdvancePhase(4, from, to)));
    TicksSound(steps);
    AdvanceAt(Ticks(EMPTY, steps), from, to, keys);
  }

  lemma EvaluationKeyIsNew()
    ensures EvaluationKey(4, 1) !in {"c", IntakeKey(4)} && ForceKey(4, true) !in {"c", IntakeKey(4)}
  {
    assert EvaluationKey(4, 1)[0] == 'p' && ForceKey(4, true)[0] == 'p' && IntakeKey(4)[0] == 'a';
  }

  lemma Evaluated()
    ensures CycleAt(Ticks(EMPTY, SATISFIED), PlanElaboration, {"c", IntakeKey(4)} + {EvaluationKey(4, 1)})
    ensures Forced(SATISFIED) == {}
  {
    IntakeDone();
    EvaluationKeyIsNew();
    TicksMore(AFTER_INTAKE, EvaluateGate(4));
    EvaluateAt(Ticks(EMPTY, AFTER_INTAKE), {"c", IntakeKey(4)});
  }

  lemma {:induction false} DeliveriesOnPath(commands: seq<Command>)
    requires forall c <- commands :: !c.AdvancePhase?
    ensures forall s <- Deliveries(commands) :: OnTickPath(s)
  {
    if commands == [] {
    } else {
      var rest := commands[..|commands| - 1];
      assert commands[|commands| - 1] in commands && forall c <- rest :: c in commands;
      DeliveriesOnPath(rest);
    }
  }

  lemma OnPathSteps()
    ensures forall s <- UNREVIEWED :: OnTickPath(s)
    ensures forall s <- FORCED :: OnTickPath(s)
  {
    DeliveriesOnPath([OBJECTIVE, LOOP, CYCLE]);
    assert TICK_PATH[1] == PlanElaboration && TICK_PATH[2] == Decomposition && TICK_PATH[3] == Dispatch;
  }

  lemma LastKeyIsNew()
    ensures PhaseKey(4, Decomposition, Dispatch) !in
            {"c", IntakeKey(4)} + {EvaluationKey(4, 1)} + {PhaseKey(4, PlanElaboration, Decomposition)}
  {
    KeysDiffer(Decomposition, Dispatch);
    var e, f := Rule(Decomposition, Dispatch), Rule(PlanElaboration, Decomposition);
    if EdgeKeys(4)(e) == EdgeKeys(4)(f) {
      EdgeKeyInjective(4, e, f);
    }
  }

  lemma Decomposed()
    ensures CycleAt(Ticks(EMPTY, DECOMPOSED), Decomposition,
                    {"c", IntakeKey(4)} + {EvaluationKey(4, 1)} + {PhaseKey(4, PlanElaboration, Decomposition)})
    ensures Forced(DECOMPOSED) == {}
  {
    Evaluated();
    KeysDiffer(PlanElaboration, Decomposition);
    AdvanceMore(SATISFIED, PlanElaboration, Decomposition, {"c", IntakeKey(4)} + {EvaluationKey(4, 1)});
  }

  lemma DispatchedPlainly()
    ensures Ticks(EMPTY, UNREVIEWED).cycles == [CycleRow(4, 2, 1, Dispatch, "policy")] && Forced(UNREVIEWED) == {}
  {
    Decomposed();
    LastKeyIsNew();
    AdvanceMore(DECOMPOSED, Decomposition, Dispatch,
                {"c", IntakeKey(4)} + {EvaluationKey(4, 1)} + {PhaseKey(4, PlanElaboration, Decomposition)});
  }

  lemma PathSlices(phase: CyclePhase)
    requires phase == Dispatch
    ensures Place(phase) == 3
    ensures TICK_PATH[..Place(phase) + 1] == [Intake, PlanElaboration, Decomposition, Dispatch]
    ensures FORCED_PATH[..Place(phase)] == [Intake, PlanElaboration, Dispatch]
  {
  }

  lemma PlainTold(steps: seq<TickStep>)
    requires forall s <- steps :: OnTickPath(s)
    requires Ticks(EMPTY, steps).cycles == [CycleRow(4, 2, 1, Dispatch, "policy")] && Forced(steps) == {}
    ensures HistoryOf(Ticks(EMPTY, steps).journal, 4) == [Intake, PlanElaboration, Decomposition, Dispatch]
  {
    TickHistory(steps, 0);
    PathSlices(Ticks(EMPTY, steps).cycles[0].phase);
  }

  /** Intake, an evaluation that satisfies the gate, and decomposition: the tick
      takes the cycle to dispatch with neither validation nor review. */
  lemma DispatchWithoutReview()
    ensures var db := Ticks(EMPTY, UNREVIEWED);
            && db.cycles == [CycleRow(4, 2, 1, Dispatch, "policy")]
            && HistoryOf(db.journal, 4) == [Intake, PlanElaboration, Decomposition, Dispatch]
  {
    DispatchedPlainly();
    OnPathSteps();
    PlainTold(UNREVIEWED);
  }

  lemma OverrideDone()
    ensures CycleAt(Ticks(EMPTY, OVERRIDDEN), Decomposition, {"c", IntakeKey(4)} + {ForceKey(4, true)})
    ensures Forced(OVERRIDDEN) == {4}
  {
    IntakeDone();
    EvaluationKeyIsNew();
    TicksMore(AFTER_INTAKE, ForceGate(4, true));
    ForceAt(Ticks(EMPTY, AFTER_INTAKE), {"c", IntakeKey(4)});
  }

  lemma DispatchedInSpite()
    ensures Ticks(EMPTY, FORCED).cycles == [CycleRow(4, 2, 1, Dispatch, "policy")] && Forced(FORCED) == {4}
  {
    OverrideDone();
    KeysDiffer(Decomposition, Dispatch);
    AdvanceMore(OVERRIDDEN, Decomposition, Dispatch, {"c", IntakeKey(4)} + {ForceKey(4, true)});
  }

  lemma ForcedTold(steps: seq<TickStep>)
    requires forall s <- steps :: OnTickPath(s)
    requires Ticks(EMPTY, steps).cycles == [CycleRow(4, 2, 1, Dispatch, "policy")] && Forced(steps) == {4}
    ensures HistoryOf(Ticks(EMPTY, steps).journal, 4) == [Intake, PlanElaboration, Dispatch]
    ensures ReplayJournal(Ticks(EMPTY, steps).journal).cycles == [CycleRow(4, 2, 1, PlanElaboration, "policy")]
  {
    TickHistory(steps, 0);
    PathSlices(Ticks(EMPTY, steps).cycles[0].phase);
    forall s <- steps ensures Onward(s) {
      PathIsOnward(s);
    }
    TicksRebuild(steps);
    TicksPart(steps);
  }

  /** Intake and an override by the clock, then dispatch: the history leaves out
      decomposition, and a replay of the journal leaves the row in elaboration. */
  lemma OverrideHappens()
    ensures var db := Ticks(EMPTY, FORCED);
            && db.cycles == [CycleRow(4, 2, 1, Dispatch, "policy")] && Forced(FORCED) == {4}
            && HistoryOf(db.journal, 4) == [Intake, PlanElaboration, Dispatch]
            && ReplayJournal(db.journal).cycles == [CycleRow(4, 2, 1, PlanElaboration, "policy")]
  {
    DispatchedInSpite();
    OnPathSteps();
    ForcedTold(FORCED);
  }
}
