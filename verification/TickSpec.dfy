/** The tick's writes to a cycle's phase: the commands it delivers, and three
    writes of its own, one of which journals no transition. */
module TickSpec {
  import opened Text
  import opened ControlPlane
  import opened CommandSpec

  /** One write. `late` says that the clock has run past the time limit. */
  datatype TickStep =
    | Deliver(c: Command)
    | AdvanceIntake(cycle: nat)
    | EvaluateGate(cycle: nat)
    | ForceGate(cycle: nat, late: bool)

  const MAX_ELABORATIONS := 5

  function IntakeKey(cycle: nat): string {
    "advance-intake-" + Decimal(cycle)
  }

  function EvaluationKey(cycle: nat, attempt: nat): string {
    "plan-gate-eval-" + Decimal(cycle) + "-" + Decimal(attempt)
  }

  function ForceKey(cycle: nat, late: bool): string {
    (if late then "plan-gate-timeout-" else "plan-gate-force-") + Decimal(cycle)
  }

  // What the tick reads

  predicate InPhaseOfLoop(c: CycleRow, loops: seq<LoopRow>, cycle: nat) {
    c.id == cycle && c.phase == PlanElaboration && exists l <- loops :: l.id == c.loopId
  }

  /** The query for cycles in plan elaboration, joined with their loops. */
  predicate Elaborating(db: Db, cycle: nat) {
    exists c <- db.cycles :: InPhaseOfLoop(c, db.loops, cycle)
  }

  /** How often the cycle's plan gate has been evaluated. */
  function Evaluations(journal: seq<Event>, cycle: nat): nat {
    if journal == [] then 0
    else
      var last := journal[|journal| - 1];
      Evaluations(journal[..|journal| - 1], cycle)
      + if last.aggregate == cycle && last.payload.GateEvaluated? then 1 else 0
  }

  predicate MentionsElaboration(e: Event, cycle: nat) {
    && e.aggregate == cycle && e.payload.PhaseTransitioned?
    && (e.payload.from == PlanElaboration || e.payload.to == PlanElaboration)
  }

  /** The journal knows when elaboration started. */
  predicate Started(journal: seq<Event>, cycle: nat) {
    exists e <- journal :: MentionsElaboration(e, cycle)
  }

  // What it writes

  predicate TakesIntake(db: Db, cycle: nat) {
    !Consumed(db.journal, CycleKind, IntakeKey(cycle)) && AtPhase(db.cycles, cycle, Intake)
  }

  /** From intake to plan elaboration, under a key of its own and without a
      sidecar record. */
  function IntakeAdvanced(db: Db, cycle: nat): Db {
    AppendEvent(db.(cycles := MoveCycle(db.cycles, cycle, Intake, PlanElaboration)),
                CycleKind, cycle, IntakeKey(cycle), PhaseTransitioned(Intake, PlanElaboration))
  }

  function GateRecorded(db: Db, cycle: nat): Db {
    var attempt := Evaluations(db.journal, cycle) + 1;
    AppendEvent(db, CycleKind, cycle, EvaluationKey(cycle, attempt), GateEvaluated(attempt))
  }

  /** `UPDATE cycles SET phase WHERE cycle_id`, whatever the phase is. */
  function SetPhase(cycles: seq<CycleRow>, id: nat, phase: CyclePhase): (r: seq<CycleRow>)
    ensures |r| == |cycles|
    ensures forall i | 0 <= i < |r| ::
      r[i] == if cycles[i].id == id then cycles[i].(phase := phase) else cycles[i]
  {
    seq(|cycles|, i requires 0 <= i < |cycles| =>
      if cycles[i].id == id then cycles[i].(phase := phase) else cycles[i])
  }

  function Overridden(db: Db, cycle: nat, late: bool): Db {
    AppendEvent(db.(cycles := SetPhase(db.cycles, cycle, Decomposition)),
                CycleKind, cycle, ForceKey(cycle, late), GateForced(late))
  }

  predicate MayEvaluate(db: Db, cycle: nat) {
    Elaborating(db, cycle) && Evaluations(db.journal, cycle) < MAX_ELABORATIONS
  }

  predicate MayForce(db: Db, cycle: nat, late: bool) {
    && Elaborating(db, cycle)
    && if late then Evaluations(db.journal, cycle) < MAX_ELABORATIONS && Started(db.journal, cycle)
       else Evaluations(db.journal, cycle) >= MAX_ELABORATIONS
  }

  function Tick(db: Db, s: TickStep): Db {
    match s
    case Deliver(c) => Step(db, c).db
    case AdvanceIntake(cycle) => if TakesIntake(db, cycle) then IntakeAdvanced(db, cycle) else db
    case EvaluateGate(cycle) => if MayEvaluate(db, cycle) then GateRecorded(db, cycle) else db
    case ForceGate(cycle, late) => if MayForce(db, cycle, late) then Overridden(db, cycle, late) else db
  }

  function Ticks(db: Db, steps: seq<TickStep>): Db {
    if steps == [] then db
    else Tick(Ticks(db, steps[..|steps| - 1]), steps[|steps| - 1])
  }

  lemma OneTick(db: Db, s: TickStep)
    ensures Ticks(db, [s]) == Tick(db, s)
  {
    assert [s][..0] == [];
  }

  lemma TwoTicks(db: Db, s: TickStep, t: TickStep)
    ensures Ticks(db, [s, t]) == Tick(Tick(db, s), t)
  {
    OneTick(db, s);
    assert [s, t][..1] == [s];
  }

  /** One cycle's turn at the plan gate. `opens` is what the planning pipeline or
      a manual override answers. */
  function GateTurn(db: Db, cycle: nat, late: bool, opens: bool): seq<TickStep> {
    if !Elaborating(db, cycle) then []
    else if Evaluations(db.journal, cycle) >= MAX_ELABORATIONS then [ForceGate(cycle, false)]
    else if late && Started(db.journal, cycle) then [ForceGate(cycle, true)]
    else if opens then [EvaluateGate(cycle), Deliver(AdvancePhase(cycle, PlanElaboration, Decomposition))]
    else [EvaluateGate(cycle)]
  }
}
