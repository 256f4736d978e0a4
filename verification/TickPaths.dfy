/** The phases the tick takes a cycle through, and what the journal tells of them. */
module TickPaths {
  import opened Text
  import opened ControlPlane
  import opened CommandSpec
  import opened TableChanges
  import opened JournalFold
  import opened PhaseRuns
  import opened PhaseHistory
  import opened TickSpec
  import opened TickRuns

  /** From intake straight to elaboration, from there straight to decomposition,
      and from integration straight to the state update: validation, review and
      certification are never entered. */
  const TICK_PATH: seq<CyclePhase> :=
    [Intake, PlanElaboration, Decomposition, Dispatch, Execution, Integration, StateUpdate, NextCycleReady]

  /** What the journal tells of the path when the gate was overridden. */
  const FORCED_PATH: seq<CyclePhase> :=
    [Intake, PlanElaboration, Dispatch, Execution, Integration, StateUpdate, NextCycleReady]

  /** Commands ask for steps of the path only; the tick's own writes make no others. */
  predicate OnTickPath(s: TickStep) {
    s.Deliver? && s.c.AdvancePhase? ==>
      exists n | 0 < n < |TICK_PATH| :: TICK_PATH[n - 1] == s.c.from && TICK_PATH[n] == s.c.to
  }

  /** Place of a phase on the path. */
  function Place(p: CyclePhase): nat {
    match p
    case Intake => 0
    case PlanElaboration => 1
    case Decomposition => 2
    case Dispatch => 3
    case Execution => 4
    case Integration => 5
    case StateUpdate => 6
    case NextCycleReady => 7
    case _ => 8
  }

  /** A cycle in place `n` has the first steps of the path in its history; a
      forced one is past elaboration and has them without decomposition. */
  predicate ToldAs(phase: CyclePhase, h: seq<CyclePhase>, forced: bool) {
    var n := Place(phase);
    n < |TICK_PATH| && if forced then n >= 2 && h == FORCED_PATH[..n] else h == TICK_PATH[..n + 1]
  }

  ghost predicate AllTold(db: Db, forced: set<nat>) {
    forall k | 0 <= k < |db.cycles| ::
      ToldAs(db.cycles[k].phase, HistoryOf(db.journal, db.cycles[k].id), db.cycles[k].id in forced)
  }

  lemma ToldNext(from: CyclePhase, to: CyclePhase, h: seq<CyclePhase>, forced: bool)
    requires ToldAs(from, h, forced) && exists n | 0 < n < |TICK_PATH| :: TICK_PATH[n - 1] == from && TICK_PATH[n] == to
    ensures ToldAs(to, h + [to], forced)
  {
    var n :| 0 < n < |TICK_PATH| && TICK_PATH[n - 1] == from && TICK_PATH[n] == to;
    assert Place(from) == n - 1 && Place(to) == n;
    if forced {
      assert FORCED_PATH[..n] == FORCED_PATH[..n - 1] + [FORCED_PATH[n - 1]];
    } else {
      assert TICK_PATH[..n + 1] == TICK_PATH[..n] + [TICK_PATH[n]];
    }
  }

  lemma ToldOverride(h: seq<CyclePhase>, forced: bool)
    requires ToldAs(PlanElaboration, h, forced)
    ensures !forced && ToldAs(Decomposition, h, true)
  {
  }

  lemma MovedRow(cycles: seq<CycleRow>, k: nat, id: nat, from: CyclePhase)
    requires CyclesOrdered(cycles) && k < |cycles| && cycles[k].id == id && AtPhase(cycles, id, from)
    ensures cycles[k].phase == from
  {
    var m :| 0 <= m < |cycles| && cycles[m].id == id && cycles[m].phase == from;
    assert m == k;
  }

  predicate StepOfPath(ch: Change) {
    ch.PhaseMoved? ==> exists n | 0 < n < |TICK_PATH| :: TICK_PATH[n - 1] == ch.from && TICK_PATH[n] == ch.to
  }

  lemma RowToldAfter(db: Db, next: Db, ch: Change, key: string, forced: set<nat>, k: nat)
    requires Changed(db, next, ch, key) && JournalBelow(db.journal, db.next) && CyclesOrdered(db.cycles)
    requires AllTold(db, forced) && ForcedBelow(forced, db.next) && StepOfPath(ch) && k < |next.cycles|
    ensures ToldAs(next.cycles[k].phase, HistoryOf(next.journal, next.cycles[k].id), next.cycles[k].id in forced)
  {
    ChangeHistory(db, next, ch, key, next.cycles[k].id);
    if k == |db.cycles| {
      NoHistoryYet(db.journal, db.next);
    } else if ch.PhaseMoved? && ch.id == db.cycles[k].id {
      MovedRow(db.cycles, k, ch.id, ch.from);
      ToldNext(ch.from, ch.to, HistoryOf(db.journal, ch.id), ch.id in forced);
    }
  }

  lemma ChangeTold(db: Db, next: Db, ch: Change, key: string, forced: set<nat>)
    requires Changed(db, next, ch, key) && JournalBelow(db.journal, db.next) && CyclesOrdered(db.cycles)
    requires AllTold(db, forced) && ForcedBelow(forced, db.next) && StepOfPath(ch)
    ensures AllTold(next, forced)
  {
    forall k | 0 <= k < |next.cycles|
      ensures ToldAs(next.cycles[k].phase, HistoryOf(next.journal, next.cycles[k].id), next.cycles[k].id in forced)
    {
      RowToldAfter(db, next, ch, key, forced, k);
    }
  }

  /** The override is in no history. */
  lemma OverrideHistory(db: Db, next: Db, cycle: nat, id: nat)
    requires Overrides(db, next, cycle)
    ensures HistoryOf(next.journal, id) == HistoryOf(db.journal, id)
  {
    SilentHistory(next.journal, |db.journal|, next.next, id);
    assert next.journal[..|db.journal|] == db.journal;
  }

  lemma OverrideTold(db: Db, next: Db, cycle: nat, forced: set<nat>)
    requires Overrides(db, next, cycle) && CyclesOrdered(db.cycles) && AllTold(db, forced)
    ensures AllTold(next, forced + {cycle})
  {
    forall k | 0 <= k < |next.cycles|
      ensures ToldAs(next.cycles[k].phase, HistoryOf(next.journal, next.cycles[k].id),
                     next.cycles[k].id in forced + {cycle})
    {
      OverrideHistory(db, next, cycle, next.cycles[k].id);
      if db.cycles[k].id == cycle {
        MovedRow(db.cycles, k, cycle, PlanElaboration);
        ToldOverride(HistoryOf(db.journal, cycle), cycle in forced);
      }
    }
  }

  lemma PathChange(db: Db, s: TickStep)
    requires OnTickPath(s)
    ensures StepOfPath(TickChange(db, s))
  {
    if s.AdvanceIntake? {
      assert TICK_PATH[0] == Intake && TICK_PATH[1] == PlanElaboration;
    }
  }

  lemma PathIsOnward(s: TickStep)
    requires OnTickPath(s)
    ensures Onward(s)
  {
    if s.Deliver? && s.c.AdvancePhase? {
      var n :| 0 < n < |TICK_PATH| && TICK_PATH[n - 1] == s.c.from && TICK_PATH[n] == s.c.to;
    }
  }

  lemma TickTold(db: Db, s: TickStep, forced: set<nat>)
    requires Sound(db) && OnTickPath(s) && AllTold(db, forced) && ForcedBelow(forced, db.next)
    ensures AllTold(Tick(db, s), forced + if Forces(db, s) then {s.cycle} else {})
  {
    if Forces(db, s) {
      ForceOverrides(db, s);
      OverrideTold(db, Tick(db, s), s.cycle, forced);
    } else {
      TickChanges(db, s);
      PathChange(db, s);
      ChangeTold(db, Tick(db, s), TickChange(db, s), TickKey(s), forced);
      assert forced + {} == forced;
    }
  }

  lemma {:induction false} TicksTold(steps: seq<TickStep>)
    requires forall s <- steps :: OnTickPath(s)
    ensures AllTold(Ticks(EMPTY, steps), Forced(steps))
  {
    if steps == [] {
    } else {
      var rest, s := steps[..|steps| - 1], steps[|steps| - 1];
      assert s in steps && forall t <- rest :: t in steps;
      TicksTold(rest);
      TicksSound(rest);
      forall t <- rest ensures Onward(t) {
        PathIsOnward(t);
      }
      TicksPart(rest);
      TickTold(Ticks(EMPTY, rest), s, Forced(rest));
    }
  }

  /** Main result: a cycle's history is the tick's path up to the row's phase
      exactly when no override took effect on it; otherwise it is that path
      without decomposition, and the row is past elaboration. */
  lemma TickHistory(steps: seq<TickStep>, k: nat)
    requires forall s <- steps :: OnTickPath(s)
    requires k < |Ticks(EMPTY, steps).cycles|
    ensures var db := Ticks(EMPTY, steps);
            var h, n := HistoryOf(db.journal, db.cycles[k].id), Place(db.cycles[k].phase);
            && n < |TICK_PATH|
            && (db.cycles[k].id !in Forced(steps) <==> h == TICK_PATH[..n + 1])
            && (db.cycles[k].id in Forced(steps) <==> n >= 2 && h == FORCED_PATH[..n])
  {
    TicksTold(steps);
    var db := Ticks(EMPTY, steps);
    OneOrOther(db.cycles[k].phase, HistoryOf(db.journal, db.cycles[k].id), db.cycles[k].id in Forced(steps));
  }

  lemma OneOrOther(phase: CyclePhase, h: seq<CyclePhase>, forced: bool)
    requires ToldAs(phase, h, forced)
    ensures var n := Place(phase);
            && n < |TICK_PATH|
            && (!forced <==> h == TICK_PATH[..n + 1]) && (forced <==> n >= 2 && h == FORCED_PATH[..n])
  {
  }

  // For any commands

  lemma OverrideAtLast(db: Db, next: Db, cycle: nat, id: nat)
    requires Overrides(db, next, cycle) && cycle != id && AtLast(db.cycles, id, HistoryOf(db.journal, id))
    ensures AtLast(next.cycles, id, HistoryOf(next.journal, id))
  {
    OverrideHistory(db, next, cycle, id);
  }

  /** A cycle that was never forced is in the phase its history ends with. */
  lemma {:induction false} UnforcedAtLast(steps: seq<TickStep>, id: nat)
    requires id !in Forced(steps)
    ensures var db := Ticks(EMPTY, steps); AtLast(db.cycles, id, HistoryOf(db.journal, id))
  {
    if steps == [] {
    } else {
      var rest, s := steps[..|steps| - 1], steps[|steps| - 1];
      var db := Ticks(EMPTY, rest);
      UnforcedAtLast(rest, id);
      TicksSound(rest);
      if Forces(db, s) {
        ForceOverrides(db, s);
        OverrideAtLast(db, Tick(db, s), s.cycle, id);
      } else {
        TickChanges(db, s);
        RowsStayAtLast(db, Tick(db, s), TickChange(db, s), TickKey(s), id);
      }
    }
  }
}
