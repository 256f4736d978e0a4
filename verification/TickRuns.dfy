/** Runs in which the tick writes phases beside the commands: the tables they
    leave, and when the journal still tells a cycle's phase. */
module TickRuns {
  import opened Text
  import opened ControlPlane
  import opened CommandSpec
  import opened Attempts
  import opened TableChanges
  import opened JournalFold
  import opened PhaseRuns
  import opened PhaseHistory
  import opened TickSpec

  // Every step as a change of the tables

  predicate Forces(db: Db, s: TickStep) {
    s.ForceGate? && MayForce(db, s.cycle, s.late)
  }

  function TickChange(db: Db, s: TickStep): Change {
    match s
    case Deliver(c) => ChangeOf(db, c)
    case AdvanceIntake(cycle) =>
      if TakesIntake(db, cycle) then PhaseMoved(cycle, Intake, PlanElaboration) else Quiet
    case _ => Quiet
  }

  function TickKey(s: TickStep): string {
    match s
    case Deliver(c) => KeyOf(c)
    case AdvanceIntake(cycle) => IntakeKey(cycle)
    case _ => ""
  }

  lemma IntakeChanges(db: Db, cycle: nat, key: string)
    requires IdsBelow(db) && AtPhase(db.cycles, cycle, Intake) && !Consumed(db.journal, CycleKind, key)
    ensures var moved := db.(cycles := MoveCycle(db.cycles, cycle, Intake, PlanElaboration));
            Changed(db, AppendEvent(moved, CycleKind, cycle, key, PhaseTransitioned(Intake, PlanElaboration)),
                    PhaseMoved(cycle, Intake, PlanElaboration), key)
  {
    var c :| c in db.cycles && c.id == cycle && c.phase == Intake;
    var e := Event(db.next, CycleKind, cycle, key, PhaseTransitioned(Intake, PlanElaboration));
    assert !Conflicts(db.journal, e);
  }

  lemma ElaboratingBelow(db: Db, cycle: nat)
    requires Elaborating(db, cycle) && CyclesBelow(db.cycles, db.next)
    ensures cycle < db.next
  {
  }

  /** Every step but the override is a change that the journal tells. */
  lemma TickChanges(db: Db, s: TickStep)
    requires IdsBelow(db) && !Forces(db, s)
    ensures Changed(db, Tick(db, s), TickChange(db, s), TickKey(s))
  {
    match s
    case Deliver(c) => StepChanges(db, c);
    case AdvanceIntake(cycle) =>
      if TakesIntake(db, cycle) {
        IntakeChanges(db, cycle, IntakeKey(cycle));
      }
    case EvaluateGate(cycle) =>
      if MayEvaluate(db, cycle) {
        ElaboratingBelow(db, cycle);
        var attempt := Evaluations(db.journal, cycle) + 1;
        SilentEvent(db, db, CycleKind, cycle, EvaluationKey(cycle, attempt), GateEvaluated(attempt), "");
      }
    case ForceGate(_, _) =>
  }

  /** The override: a phase set, and a journal silent about it. */
  ghost predicate Overrides(db: Db, next: Db, cycle: nat) {
    && next.cycles == SetPhase(db.cycles, cycle, Decomposition) && AtPhase(db.cycles, cycle, PlanElaboration)
    && next.loops == db.loops && next.nodes == db.nodes && next.tasks == db.tasks && next.attempts == db.attempts
    && next.next > db.next && AddsSilent(db.journal, next.journal, next.next)
  }

  lemma ForceOverrides(db: Db, s: TickStep)
    requires IdsBelow(db) && Forces(db, s)
    ensures Overrides(db, Tick(db, s), s.cycle)
  {
    ElaboratingBelow(db, s.cycle);
    var moved := db.(cycles := SetPhase(db.cycles, s.cycle, Decomposition));
    SilentAppend(moved, s.cycle, ForceKey(s.cycle, s.late), GateForced(s.late));
    var c :| c in db.cycles && InPhaseOfLoop(c, db.loops, s.cycle);
  }

  lemma SilentAppend(db: Db, cycle: nat, key: string, payload: Payload)
    requires cycle < db.next && Silent(payload)
    ensures var next := AppendEvent(db, CycleKind, cycle, key, payload);
            AddsSilent(db.journal, next.journal, next.next)
  {
  }

  // What every step keeps

  ghost predicate CyclesOrdered(cycles: seq<CycleRow>) {
    forall i, j | 0 <= i < j < |cycles| :: cycles[i].id < cycles[j].id
  }

  ghost predicate Sound(db: Db) {
    Coupled(db) && IdsBelow(db) && CyclesOrdered(db.cycles)
  }

  lemma CouplingStays(db: Db, next: Db)
    requires Coupled(db) && next.tasks == db.tasks && next.attempts == db.attempts && next.next >= db.next
    ensures Coupled(next)
  {
  }

  lemma TickCouples(db: Db, s: TickStep)
    requires Coupled(db)
    ensures Coupled(Tick(db, s))
  {
    if s.Deliver? {
      StepKeepsCoupling(db, s.c);
    } else {
      CouplingStays(db, Tick(db, s));
    }
  }

  lemma CyclesStayOrdered(db: Db, next: Db, ch: Change, key: string)
    requires Changed(db, next, ch, key) && CyclesBelow(db.cycles, db.next) && CyclesOrdered(db.cycles)
    ensures CyclesOrdered(next.cycles)
  {
  }

  lemma ChangeKeepsIds(db: Db, next: Db, ch: Change, key: string)
    requires Changed(db, next, ch, key) && IdsBelow(db) && CyclesOrdered(db.cycles) && TasksBelow(next.tasks, next.next)
    ensures IdsBelow(next) && CyclesOrdered(next.cycles)
  {
    JournalStaysBelow(db, next, ch, key);
    CyclesStayBelow(db, next, ch, key);
    CyclesStayOrdered(db, next, ch, key);
  }

  lemma OverrideKeepsIds(db: Db, next: Db, cycle: nat)
    requires Overrides(db, next, cycle) && IdsBelow(db) && CyclesOrdered(db.cycles)
    ensures IdsBelow(next) && CyclesOrdered(next.cycles)
  {
    forall i | 0 <= i < |next.journal| ensures Below(next.journal[i], next.next) {
      assert i < |db.journal| ==> next.journal[i] == db.journal[i];
    }
  }

  lemma TickSound(db: Db, s: TickStep)
    requires Sound(db)
    ensures Sound(Tick(db, s))
  {
    TickCouples(db, s);
    if Forces(db, s) {
      ForceOverrides(db, s);
      OverrideKeepsIds(db, Tick(db, s), s.cycle);
    } else {
      TickChanges(db, s);
      ChangeKeepsIds(db, Tick(db, s), TickChange(db, s), TickKey(s));
    }
  }

  lemma {:induction false} TicksSound(steps: seq<TickStep>)
    ensures Sound(Ticks(EMPTY, steps))
  {
    if steps == [] {
    } else {
      TicksSound(steps[..|steps| - 1]);
      TickSound(Ticks(EMPTY, steps[..|steps| - 1]), steps[|steps| - 1]);
    }
  }

  // What the journal still tells

  /** The cycles on which an override has taken effect. */
  function Forced(steps: seq<TickStep>): set<nat> {
    if steps == [] then {}
    else
      var rest, s := steps[..|steps| - 1], steps[|steps| - 1];
      Forced(rest) + if Forces(Ticks(EMPTY, rest), s) then {s.cycle} else {}
  }

  /** Replayed rows are the table's but for the phase of forced cycles. */
  ghost predicate Follows(cycles: seq<CycleRow>, replayed: seq<CycleRow>, forced: set<nat>) {
    && |replayed| == |cycles|
    && forall k | 0 <= k < |cycles| ::
         replayed[k] == cycles[k].(phase := replayed[k].phase)
         && (cycles[k].id !in forced ==> replayed[k].phase == cycles[k].phase)
  }

  lemma FollowsChange(cycles: seq<CycleRow>, replayed: seq<CycleRow>, forced: set<nat>, ch: Change)
    requires Follows(cycles, replayed, forced)
    ensures Follows(CyclesAfter(cycles, ch), CyclesAfter(replayed, ch), forced)
  {
  }

  lemma FollowsOverride(cycles: seq<CycleRow>, replayed: seq<CycleRow>, forced: set<nat>, cycle: nat)
    requires Follows(cycles, replayed, forced)
    ensures Follows(SetPhase(cycles, cycle, Decomposition), replayed, forced + {cycle})
  {
  }

  /** The override adds nothing that a replay looks at. */
  lemma OverrideReplays(db: Db, next: Db, cycle: nat)
    requires Overrides(db, next, cycle)
    ensures ReplayJournal(next.journal) == ReplayJournal(db.journal)
  {
    SilentReplay(next.journal, |db.journal|, next.next);
    assert next.journal[..|db.journal|] == db.journal;
  }

  /** What the journal rebuilds in spite of overrides. */
  ghost predicate Rebuilds(db: Db, forced: set<nat>) {
    LoopsAndNodesMatch(db) && Follows(db.cycles, ReplayJournal(db.journal).cycles, forced)
  }

  lemma TickLoopsAndNodes(db: Db, s: TickStep)
    requires IdsBelow(db) && LoopsAndNodesMatch(db)
    ensures LoopsAndNodesMatch(Tick(db, s))
  {
    if s.Deliver? {
      StepKeepsLoopsAndNodes(db, s.c);
    } else if Forces(db, s) {
      ForceOverrides(db, s);
      OverrideReplays(db, Tick(db, s), s.cycle);
    } else {
      TickChanges(db, s);
      ChangeKeepsLoopsAndNodes(db, Tick(db, s), TickChange(db, s), TickKey(s));
    }
  }

  /** Main result, for any commands: with the tick's own writes among them, the
      journal still replays to the loops, the nodes, and every cycle row on which
      no override took effect; of the others it loses the phase alone. */
  lemma {:induction false} TicksRebuild(steps: seq<TickStep>)
    ensures Rebuilds(Ticks(EMPTY, steps), Forced(steps))
  {
    if steps == [] {
    } else {
      var rest, s := steps[..|steps| - 1], steps[|steps| - 1];
      var db := Ticks(EMPTY, rest);
      TicksRebuild(rest);
      TicksSound(rest);
      TickLoopsAndNodes(db, s);
      TickFollows(db, s, Forced(rest));
    }
  }

  lemma TickFollows(db: Db, s: TickStep, forced: set<nat>)
    requires IdsBelow(db) && Follows(db.cycles, ReplayJournal(db.journal).cycles, forced)
    ensures Follows(Tick(db, s).cycles, ReplayJournal(Tick(db, s).journal).cycles,
                    forced + if Forces(db, s) then {s.cycle} else {})
  {
    var replayed := ReplayJournal(db.journal).cycles;
    if Forces(db, s) {
      ForceOverrides(db, s);
      OverrideReplays(db, Tick(db, s), s.cycle);
      FollowsOverride(db.cycles, replayed, forced, s.cycle);
    } else {
      TickChanges(db, s);
      ChangeReplays(db, Tick(db, s), TickChange(db, s), TickKey(s));
      ChangeTables(db, Tick(db, s), TickChange(db, s), TickKey(s));
      FollowsChange(db.cycles, replayed, forced, TickChange(db, s));
      assert forced + {} == forced;
    }
  }

  // Runs in which no command leads back to planning

  predicate Planning(p: CyclePhase) {
    Rank(p) < Rank(Decomposition)
  }

  predicate Onward(s: TickStep) {
    s.Deliver? && s.c.AdvancePhase? && !Planning(s.c.from) ==> !Planning(s.c.to)
  }

  ghost predicate ForcedBelow(forced: set<nat>, next: nat) {
    forall id <- forced :: id < next
  }

  /** A forced cycle is past planning, while its journal still elaborates. */
  ghost predicate Parted(cycles: seq<CycleRow>, replayed: seq<CycleRow>, forced: set<nat>) {
    && |replayed| == |cycles|
    && forall k | 0 <= k < |cycles| && cycles[k].id in forced ::
         replayed[k].id == cycles[k].id && replayed[k].phase == PlanElaboration && !Planning(cycles[k].phase)
  }

  lemma PartedMove(cycles: seq<CycleRow>, replayed: seq<CycleRow>, forced: set<nat>, id: nat,
                   from: CyclePhase, to: CyclePhase)
    requires Parted(cycles, replayed, forced) && AtPhase(cycles, id, from) && CyclesOrdered(cycles)
    requires !Planning(from) ==> !Planning(to)
    ensures Parted(MoveCycle(cycles, id, from, to), MoveCycle(replayed, id, from, to), forced)
  {
    var m :| 0 <= m < |cycles| && cycles[m].id == id && cycles[m].phase == from;
    forall k | 0 <= k < |cycles| && cycles[k].id == id ensures k == m {
    }
  }

  lemma PartedChange(db: Db, next: Db, ch: Change, key: string, replayed: seq<CycleRow>, forced: set<nat>)
    requires Changed(db, next, ch, key) && Parted(db.cycles, replayed, forced) && ForcedBelow(forced, db.next)
    requires CyclesOrdered(db.cycles) && (ch.PhaseMoved? && !Planning(ch.from) ==> !Planning(ch.to))
    ensures Parted(CyclesAfter(db.cycles, ch), CyclesAfter(replayed, ch), forced)
  {
    if ch.PhaseMoved? {
      PartedMove(db.cycles, replayed, forced, ch.id, ch.from, ch.to);
    }
  }

  lemma PartedOverride(cycles: seq<CycleRow>, replayed: seq<CycleRow>, forced: set<nat>, cycle: nat)
    requires Parted(cycles, replayed, forced) && Follows(cycles, replayed, forced)
    requires CyclesOrdered(cycles) && AtPhase(cycles, cycle, PlanElaboration)
    ensures Parted(SetPhase(cycles, cycle, Decomposition), replayed, forced + {cycle})
  {
    var m :| 0 <= m < |cycles| && cycles[m].id == cycle && cycles[m].phase == PlanElaboration;
    forall k | 0 <= k < |cycles| && cycles[k].id == cycle ensures k == m {
    }
  }

  lemma TickParts(db: Db, s: TickStep, forced: set<nat>)
    requires Sound(db) && Onward(s) && ForcedBelow(forced, db.next)
    requires Follows(db.cycles, ReplayJournal(db.journal).cycles, forced)
    requires Parted(db.cycles, ReplayJournal(db.journal).cycles, forced)
    ensures Parted(Tick(db, s).cycles, ReplayJournal(Tick(db, s).journal).cycles,
                   forced + if Forces(db, s) then {s.cycle} else {})
  {
    var replayed := ReplayJournal(db.journal).cycles;
    if Forces(db, s) {
      ForceOverrides(db, s);
      OverrideReplays(db, Tick(db, s), s.cycle);
      PartedOverride(db.cycles, replayed, forced, s.cycle);
    } else {
      TickChanges(db, s);
      ChangeReplays(db, Tick(db, s), TickChange(db, s), TickKey(s));
      ChangeTables(db, Tick(db, s), TickChange(db, s), TickKey(s));
      OnwardChange(db, s);
      PartedChange(db, Tick(db, s), TickChange(db, s), TickKey(s), replayed, forced);
      assert forced + {} == forced;
    }
  }

  lemma OnwardChange(db: Db, s: TickStep)
    requires Onward(s)
    ensures var ch := TickChange(db, s); ch.PhaseMoved? && !Planning(ch.from) ==> !Planning(ch.to)
  {
  }

  lemma TickNext(db: Db, s: TickStep)
    requires IdsBelow(db)
    ensures Tick(db, s).next >= db.next
    ensures Forces(db, s) ==> s.cycle < db.next
  {
    if Forces(db, s) {
      ForceOverrides(db, s);
      ElaboratingBelow(db, s.cycle);
    } else {
      TickChanges(db, s);
    }
  }

  lemma {:induction false} TicksPart(steps: seq<TickStep>)
    requires forall s <- steps :: Onward(s)
    ensures ForcedBelow(Forced(steps), Ticks(EMPTY, steps).next)
    ensures var db := Ticks(EMPTY, steps); Parted(db.cycles, ReplayJournal(db.journal).cycles, Forced(steps))
  {
    if steps == [] {
    } else {
      var rest, s := steps[..|steps| - 1], steps[|steps| - 1];
      assert s in steps && forall t <- rest :: t in steps;
      TicksPart(rest);
      TicksSound(rest);
      TicksRebuild(rest);
      TickNext(Ticks(EMPTY, rest), s);
      TickParts(Ticks(EMPTY, rest), s, Forced(rest));
    }
  }

  lemma RowTells(cycles: seq<CycleRow>, replayed: seq<CycleRow>, forced: set<nat>, k: nat)
    requires Follows(cycles, replayed, forced) && Parted(cycles, replayed, forced) && k < |cycles|
    ensures replayed[k] == cycles[k] <==> cycles[k].id !in forced
  {
  }

  /** Main result: as long as no command leads back to planning, which the tick
      never asks for, the journal replays a cycle's row exactly when no override
      took effect on it. */
  lemma ReplayTellsForce(steps: seq<TickStep>, k: nat)
    requires forall s <- steps :: Onward(s)
    requires k < |Ticks(EMPTY, steps).cycles|
    ensures var db := Ticks(EMPTY, steps);
            && |ReplayJournal(db.journal).cycles| == |db.cycles|
            && (ReplayJournal(db.journal).cycles[k] == db.cycles[k] <==> db.cycles[k].id !in Forced(steps))
  {
    TicksRebuild(steps);
    TicksPart(steps);
    var db := Ticks(EMPTY, steps);
    RowTells(db.cycles, ReplayJournal(db.journal).cycles, Forced(steps), k);
  }

  // Transitions and their keys

  /** A transition stands under the key of its phases, or under the intake key. */
  predicate TransitionKey(e: Event) {
    && e.kind == CycleKind && e.payload.PhaseTransitioned?
    && (|| e.key == PhaseKey(e.aggregate, e.payload.from, e.payload.to)
        || (e.payload == PhaseTransitioned(Intake, PlanElaboration) && e.key == IntakeKey(e.aggregate)))
  }

  /** The same transition of the same cycle. */
  predicate Repeats(d: Event, e: Event) {
    d.payload.PhaseTransitioned? && d.payload == e.payload && d.aggregate == e.aggregate
  }

  ghost predicate KeysOfTransitions(journal: seq<Event>) {
    forall i | 0 <= i < |journal| && journal[i].payload.PhaseTransitioned? :: TransitionKey(journal[i])
  }

  ghost predicate RepeatsOnlyIntake(journal: seq<Event>) {
    forall i, j | 0 <= i < j < |journal| && Repeats(journal[i], journal[j]) ::
      journal[i].payload == PhaseTransitioned(Intake, PlanElaboration) && journal[i].key != journal[j].key
  }

  ghost predicate TransitionsOnce(journal: seq<Event>) {
    KeysOfTransitions(journal) && RepeatsOnlyIntake(journal)
  }

  lemma NoNewTransition(before: seq<Event>, after: seq<Event>)
    requires TransitionsOnce(before) && before <= after
    requires forall i | |before| <= i < |after| :: !after[i].payload.PhaseTransitioned?
    ensures TransitionsOnce(after)
  {
    assert forall i | 0 <= i < |before| :: after[i] == before[i];
  }

  lemma TwoKeys(d: Event, e: Event)
    requires TransitionKey(d) && TransitionKey(e) && Repeats(d, e) && d.key != e.key
    ensures d.payload == PhaseTransitioned(Intake, PlanElaboration)
  {
  }

  lemma FreeKey(journal: seq<Event>, i: nat, key: string)
    requires i < |journal| && journal[i].kind == CycleKind && !Consumed(journal, CycleKind, key)
    ensures journal[i].key != key
  {
  }

  lemma KeysStay(before: seq<Event>, after: seq<Event>)
    requires KeysOfTransitions(before) && before <= after
    requires forall i | |before| <= i < |after| && after[i].payload.PhaseTransitioned? :: TransitionKey(after[i])
    ensures KeysOfTransitions(after)
  {
    assert forall i | 0 <= i < |before| :: after[i] == before[i];
  }

  lemma NewRepeats(before: seq<Event>, e: Event)
    requires KeysOfTransitions(before) && TransitionKey(e) && !Consumed(before, CycleKind, e.key)
    ensures forall i | 0 <= i < |before| && Repeats(before[i], e) ::
      before[i].payload == PhaseTransitioned(Intake, PlanElaboration) && before[i].key != e.key
  {
    forall i | 0 <= i < |before| && Repeats(before[i], e)
      ensures before[i].payload == PhaseTransitioned(Intake, PlanElaboration) && before[i].key != e.key
    {
      FreeKey(before, i, e.key);
      TwoKeys(before[i], e);
    }
  }

  lemma NewTransition(before: seq<Event>, after: seq<Event>)
    requires TransitionsOnce(before) && before <= after && |before| < |after|
    requires TransitionKey(after[|before|]) && !Consumed(before, CycleKind, after[|before|].key)
    requires forall i | |before| < i < |after| :: !after[i].payload.PhaseTransitioned?
    ensures TransitionsOnce(after)
  {
    var e := after[|before|];
    NewRepeats(before, e);
    KeysStay(before, after);
    forall i, j | 0 <= i < j < |after| && Repeats(after[i], after[j])
      ensures after[i].payload == PhaseTransitioned(Intake, PlanElaboration) && after[i].key != after[j].key
    {
      assert after[i] == before[i];
      assert j < |before| ==> after[j] == before[j];
    }
  }

  lemma MoveKey(db: Db, s: TickStep)
    requires TickChange(db, s).PhaseMoved?
    ensures var ch := TickChange(db, s);
            && !Consumed(db.journal, CycleKind, TickKey(s))
            && (forall n :: TransitionKey(Event(n, CycleKind, ch.id, TickKey(s), PhaseTransitioned(ch.from, ch.to))))
  {
  }

  lemma ChangeTransitions(db: Db, next: Db, ch: Change, key: string)
    requires Changed(db, next, ch, key) && TransitionsOnce(db.journal)
    requires ch.PhaseMoved? ==>
      && !Consumed(db.journal, CycleKind, key)
      && (forall n :: TransitionKey(Event(n, CycleKind, ch.id, key, PhaseTransitioned(ch.from, ch.to))))
    ensures TransitionsOnce(next.journal)
  {
    if ch.PhaseMoved? {
      var e := next.journal[|db.journal|];
      assert e == Event(e.id, CycleKind, ch.id, key, PhaseTransitioned(ch.from, ch.to));
      NewTransition(db.journal, next.journal);
    } else {
      NoNewTransition(db.journal, next.journal);
    }
  }

  lemma TickTransitions(db: Db, s: TickStep)
    requires IdsBelow(db) && TransitionsOnce(db.journal)
    ensures TransitionsOnce(Tick(db, s).journal)
  {
    if Forces(db, s) {
      ForceOverrides(db, s);
      NoNewTransition(db.journal, Tick(db, s).journal);
    } else {
      TickChanges(db, s);
      if TickChange(db, s).PhaseMoved? {
        MoveKey(db, s);
      }
      ChangeTransitions(db, Tick(db, s), TickChange(db, s), TickKey(s));
    }
  }

  /** A cycle makes each transition at most once, but for the step from intake to
      plan elaboration, which has two keys and so can be made twice. */
  lemma {:induction false} EachTransitionOnce(steps: seq<TickStep>)
    ensures TransitionsOnce(Ticks(EMPTY, steps).journal)
  {
    if steps == [] {
    } else {
      EachTransitionOnce(steps[..|steps| - 1]);
      TicksSound(steps[..|steps| - 1]);
      TickTransitions(Ticks(EMPTY, steps[..|steps| - 1]), steps[|steps| - 1]);
    }
  }
}
