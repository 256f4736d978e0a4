/** What the tick's own phase writes leave in the tables and the journal. */
module GateLaw {
  import opened Text
  import opened ControlPlane
  import opened CommandSpec
  import opened RowLaws
  import opened TickSpec

  /** Some row of the cycle is in plan elaboration, under a loop that exists. */
  predicate Waits(db: Db, cycle: nat) {
    exists i, j ::
      && 0 <= i < |db.cycles| && 0 <= j < |db.loops| && db.cycles[i].id == cycle
      && db.cycles[i].phase == PlanElaboration && db.loops[j].id == db.cycles[i].loopId
  }

  predicate IsEvaluation(e: Event, cycle: nat) {
    e.aggregate == cycle && e.payload.GateEvaluated?
  }

  /** How many evaluations of the cycle's gate the journal holds. */
  ghost function Evaluated(journal: seq<Event>, cycle: nat): nat {
    |set i: nat | i < |journal| && IsEvaluation(journal[i], cycle)|
  }

  /** The journal has a transition of the cycle to or from plan elaboration. */
  predicate HasStarted(journal: seq<Event>, cycle: nat) {
    exists i ::
      && 0 <= i < |journal| && journal[i].aggregate == cycle && journal[i].payload.PhaseTransitioned?
      && PlanElaboration in {journal[i].payload.from, journal[i].payload.to}
  }

  /** The event goes in unless one with its kind, aggregate and key is there. */
  function WithEvent(db: Db, e: Event): Db {
    db.(journal := db.journal + (if HasRow(db.journal, e) then [] else [e]), next := db.next + 1)
  }

  lemma AppendsAsStated(db: Db, kind: AggregateKind, aggregate: nat, key: string, payload: Payload)
    ensures AppendEvent(db, kind, aggregate, key, payload)
            == WithEvent(db, Event(db.next, kind, aggregate, key, payload))
  {
    RowConflicts(db.journal, Event(db.next, kind, aggregate, key, payload));
    assert db.journal + [] == db.journal;
  }

  lemma OneEvaluationMore(rest: seq<Event>, last: Event, cycle: nat)
    ensures Evaluated(rest + [last], cycle) == Evaluated(rest, cycle) + if IsEvaluation(last, cycle) then 1 else 0
  {
    var journal := rest + [last];
    var before := set i: nat | i < |rest| && IsEvaluation(rest[i], cycle);
    var all := set i: nat | i < |journal| && IsEvaluation(journal[i], cycle);
    assert forall i: nat | i < |rest| :: journal[i] == rest[i];
    if IsEvaluation(last, cycle) {
      assert all == before + {|rest|};
    } else {
      assert all == before;
    }
  }

  lemma {:induction false} EvaluationsAreCounted(journal: seq<Event>, cycle: nat)
    ensures Evaluations(journal, cycle) == Evaluated(journal, cycle)
  {
    if journal == [] {
    } else {
      var rest, last := journal[..|journal| - 1], journal[|journal| - 1];
      EvaluationsAreCounted(rest, cycle);
      OneEvaluationMore(rest, last, cycle);
      assert rest + [last] == journal;
    }
  }

  lemma WaitsIsElaborating(db: Db, cycle: nat)
    ensures Waits(db, cycle) <==> Elaborating(db, cycle)
  {
    if Elaborating(db, cycle) {
      var c :| c in db.cycles && InPhaseOfLoop(c, db.loops, cycle);
      var i :| 0 <= i < |db.cycles| && db.cycles[i] == c;
      var l :| l in db.loops && l.id == c.loopId;
      var j :| 0 <= j < |db.loops| && db.loops[j] == l;
      assert db.cycles[i].id == cycle && db.loops[j].id == db.cycles[i].loopId;
    }
    if Waits(db, cycle) {
      var i, j :| 0 <= i < |db.cycles| && 0 <= j < |db.loops| && db.cycles[i].id == cycle
        && db.cycles[i].phase == PlanElaboration && db.loops[j].id == db.cycles[i].loopId;
      assert db.loops[j] in db.loops && InPhaseOfLoop(db.cycles[i], db.loops, cycle);
    }
  }

  lemma StartedIsStarted(journal: seq<Event>, cycle: nat)
    ensures HasStarted(journal, cycle) <==> Started(journal, cycle)
  {
    if Started(journal, cycle) {
      var e :| e in journal && MentionsElaboration(e, cycle);
      var i :| 0 <= i < |journal| && journal[i] == e;
      assert PlanElaboration in {journal[i].payload.from, journal[i].payload.to};
    }
    if HasStarted(journal, cycle) {
      var i :| 0 <= i < |journal| && journal[i].aggregate == cycle && journal[i].payload.PhaseTransitioned?
        && PlanElaboration in {journal[i].payload.from, journal[i].payload.to};
      assert journal[i] in journal && MentionsElaboration(journal[i], cycle);
    }
  }

  // A turn at the plan gate

  /** Every row of the cycle is in decomposition, and one event says it was forced. */
  ghost predicate Overrode(db: Db, next: Db, cycle: nat, late: bool) {
    var key := (if late then "plan-gate-timeout-" else "plan-gate-force-") + Decimal(cycle);
    && Rewritten(db.cycles, next.cycles, (c: CycleRow) => if c.id == cycle then c.(phase := Decomposition) else c)
    && next == WithEvent(db, Event(db.next, CycleKind, cycle, key, GateForced(late))).(cycles := next.cycles)
  }

  /** One more evaluation is recorded, under its number. */
  ghost function Recorded(db: Db, cycle: nat): Db {
    var n := Evaluated(db.journal, cycle) + 1;
    WithEvent(db, Event(db.next, CycleKind, cycle, "plan-gate-eval-" + Decimal(cycle) + "-" + Decimal(n),
                        GateEvaluated(n)))
  }

  /** A turn leaves a cycle that does not wait alone. It overrides the gate after
      five evaluations, or when it is late and the start is on record; otherwise
      it records an evaluation, and advances the cycle if the gate opens. */
  ghost predicate TurnLaw(db: Db, next: Db, cycle: nat, late: bool, opens: bool) {
    var recorded := Recorded(db, cycle);
    var key := PhaseKey(cycle, PlanElaboration, Decomposition);
    if !Waits(db, cycle) then next == db
    else if Evaluated(db.journal, cycle) >= 5 then Overrode(db, next, cycle, false)
    else if late && HasStarted(db.journal, cycle) then Overrode(db, next, cycle, true)
    else if !opens || Used(recorded.journal, CycleKind, key) then next == recorded
    else Advanced(recorded, Reply(next, Accepted(true, false, [recorded.next])), cycle, PlanElaboration, Decomposition)
  }

  lemma ForceKeeps(db: Db, cycle: nat, late: bool)
    requires MayForce(db, cycle, late)
    ensures Overrode(db, Tick(db, ForceGate(cycle, late)), cycle, late)
  {
    AppendsAsStated(db.(cycles := SetPhase(db.cycles, cycle, Decomposition)), CycleKind, cycle, ForceKey(cycle, late),
                    GateForced(late));
  }

  lemma EvaluationKeeps(db: Db, cycle: nat)
    requires MayEvaluate(db, cycle)
    ensures Tick(db, EvaluateGate(cycle)) == Recorded(db, cycle)
  {
    var n := Evaluations(db.journal, cycle) + 1;
    EvaluationsAreCounted(db.journal, cycle);
    AppendsAsStated(db, CycleKind, cycle, EvaluationKey(cycle, n), GateEvaluated(n));
  }

  lemma StillWaits(db: Db, cycle: nat)
    requires Waits(db, cycle)
    ensures exists c <- Recorded(db, cycle).cycles :: c.id == cycle && c.phase == PlanElaboration
  {
    var i, j :| 0 <= i < |db.cycles| && 0 <= j < |db.loops| && db.cycles[i].id == cycle
      && db.cycles[i].phase == PlanElaboration && db.loops[j].id == db.cycles[i].loopId;
    assert db.cycles[i] in db.cycles;
  }

  lemma AdvanceKeeps(db: Db, cycle: nat)
    requires exists c <- db.cycles :: c.id == cycle && c.phase == PlanElaboration
    ensures var next := Tick(db, Deliver(AdvancePhase(cycle, PlanElaboration, Decomposition)));
            if Used(db.journal, CycleKind, PhaseKey(cycle, PlanElaboration, Decomposition)) then next == db
            else Advanced(db, Reply(next, Accepted(true, false, [db.next])), cycle, PlanElaboration, Decomposition)
  {
    AdvanceLaw(db, cycle, PlanElaboration, Decomposition);
  }

  /** Main result: every turn at the gate keeps to the law. */
  lemma TurnKeepsLaw(db: Db, cycle: nat, late: bool, opens: bool)
    ensures TurnLaw(db, Ticks(db, GateTurn(db, cycle, late, opens)), cycle, late, opens)
  {
    WaitsIsElaborating(db, cycle);
    EvaluationsAreCounted(db.journal, cycle);
    StartedIsStarted(db.journal, cycle);
    if Elaborating(db, cycle) {
      if Evaluations(db.journal, cycle) >= 5 {
        OneTick(db, ForceGate(cycle, false));
        ForceKeeps(db, cycle, false);
      } else if late && Started(db.journal, cycle) {
        OneTick(db, ForceGate(cycle, true));
        ForceKeeps(db, cycle, true);
      } else {
        OneTick(db, EvaluateGate(cycle));
        EvaluationKeeps(db, cycle);
        if opens {
          TwoTicks(db, EvaluateGate(cycle), Deliver(AdvancePhase(cycle, PlanElaboration, Decomposition)));
          StillWaits(db, cycle);
          AdvanceKeeps(Recorded(db, cycle), cycle);
        }
      }
    }
  }

  /** What the law says of one waiting row: it is in decomposition afterwards
      exactly when the turn was an override, or the gate opens and the transition
      has not been made; and of its evaluations: one more, unless overridden. */
  lemma TurnOutcome(db: Db, next: Db, cycle: nat, late: bool, opens: bool, i: nat, j: nat)
    requires TurnLaw(db, next, cycle, late, opens)
    requires i < |db.cycles| && j < |db.loops| && db.cycles[i].id == cycle && db.cycles[i].phase == PlanElaboration
    requires db.loops[j].id == db.cycles[i].loopId
    ensures var n := Evaluated(db.journal, cycle);
            var overridden := n >= 5 || (late && HasStarted(db.journal, cycle));
            var made := Used(Recorded(db, cycle).journal, CycleKind, PhaseKey(cycle, PlanElaboration, Decomposition));
            && |next.cycles| == |db.cycles|
            && next.cycles[i].phase == (if overridden || (opens && !made) then Decomposition else PlanElaboration)
            && (forall k | 0 <= k < |db.cycles| && db.cycles[k].id != cycle :: next.cycles[k] == db.cycles[k])
  {
    assert Waits(db, cycle);
  }

  /** The evaluation is one more, unless its number is taken. */
  lemma OneEvaluationAtMost(db: Db, cycle: nat)
    ensures var n := Evaluated(db.journal, cycle) + 1;
            var key := "plan-gate-eval-" + Decimal(cycle) + "-" + Decimal(n);
            var taken := exists e <- db.journal :: e.kind == CycleKind && e.aggregate == cycle && e.key == key;
            Evaluated(Recorded(db, cycle).journal, cycle) == if taken then n - 1 else n
  {
    var n := Evaluated(db.journal, cycle) + 1;
    var key := "plan-gate-eval-" + Decimal(cycle) + "-" + Decimal(n);
    OneEvaluationMore(db.journal, Event(db.next, CycleKind, cycle, key, GateEvaluated(n)), cycle);
    assert db.journal + [] == db.journal;
  }

  // The intake step

  /** From intake to plan elaboration, once, with one event and no sidecar. */
  lemma IntakeLaw(db: Db, cycle: nat)
    ensures var next := Tick(db, AdvanceIntake(cycle));
            var key := "advance-intake-" + Decimal(cycle);
            if Used(db.journal, CycleKind, key) || (forall c <- db.cycles :: c.id == cycle ==> c.phase != Intake)
            then next == db
            else
              && Rewritten(db.cycles, next.cycles, (c: CycleRow) =>
                   if c.id == cycle && c.phase == Intake then c.(phase := PlanElaboration) else c)
              && next == db.(
                   cycles := next.cycles, next := db.next + 1,
                   journal := db.journal + [Event(db.next, CycleKind, cycle, key,
                                                  PhaseTransitioned(Intake, PlanElaboration))])
  {
    UsedIsConsumed(db.journal, CycleKind, IntakeKey(cycle));
    if !Consumed(db.journal, CycleKind, IntakeKey(cycle)) {
      NewEventGoesIn(db.(cycles := MoveCycle(db.cycles, cycle, Intake, PlanElaboration)), CycleKind, cycle,
                     IntakeKey(cycle), PhaseTransitioned(Intake, PlanElaboration));
    }
  }
}
