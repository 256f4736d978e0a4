/** Which events a step adds to the journal. */
module StepEvents {
  import opened Text
  import opened ControlPlane
  import opened CommandSpec
  import opened ExactlyOnce

  /** The event a command is journaled as, under its own kind and key. */
  predicate IsOwn(e: Event, c: Command) {
    && e.kind == KindOf(c) && e.key == KeyOf(c) && !e.payload.TaskDispatched?
    && (e.payload.MilestoneBridged? <==> c.CreateNode?)
    && (c.CreateNode? ==> e.payload.milestone == c.milestone)
  }

  /** The record beside a phase change. */
  predicate IsSidecar(e: Event, c: Command) {
    e.kind == SidecarKind && e.payload.PhaseRecorded? && c.AdvancePhase? && e.key == SidecarKey(c.cycle, c.from, c.to)
  }

  /** The event of one started task. */
  predicate IsDispatch(e: Event) {
    e.kind == TaskKind && e.payload.TaskDispatched? && e.key == DispatchKey(e.aggregate)
  }

  /** From `before` to `after` command `c` has added at most one event of its
      own, at most one sidecar record, and, if it is a dispatch round, events of
      started tasks; it has added nothing if its key was there before. */
  ghost predicate AddsEvents(before: seq<Event>, after: seq<Event>, c: Command) {
    && before <= after
    && (forall i | |before| <= i < |after| ::
          IsOwn(after[i], c) || IsSidecar(after[i], c) || (c.DispatchRound? && IsDispatch(after[i])))
    && (forall i, j | |before| <= i < j < |after| ::
          !(IsOwn(after[i], c) && IsOwn(after[j], c)) && !(IsSidecar(after[i], c) && IsSidecar(after[j], c)))
    && (after != before ==> !Consumed(before, KindOf(c), KeyOf(c)) && Consumed(after, KindOf(c), KeyOf(c)))
  }

  /** The usual shape: the command's own event, if it was not a duplicate. */
  ghost predicate AddsOne(before: seq<Event>, after: seq<Event>, c: Command) {
    after == before || (|after| == |before| + 1 && before <= after && IsOwn(after[|before|], c))
  }

  lemma CreationAddsOne(db: Db, c: Command)
    requires Creates(c)
    ensures AddsOne(db.journal, Effect(db, c).db.journal, c)
  {
  }

  lemma ReportAddsOne(db: Db, c: Command)
    requires ReportsOnTask(c)
    ensures AddsOne(db.journal, Effect(db, c).db.journal, c)
  {
  }

  lemma CycleOrTaskAddsOne(db: Db, c: Command)
    requires c.NextCycle? || c.AutoTask?
    ensures AddsOne(db.journal, Effect(db, c).db.journal, c)
  {
  }

  lemma OneIsEvents(before: seq<Event>, after: seq<Event>, c: Command)
    requires AddsOne(before, after, c) && !Consumed(before, KindOf(c), KeyOf(c))
    ensures AddsEvents(before, after, c)
  {
    if after != before {
      assert after[|before|].kind == KindOf(c);
    }
  }

  lemma WithSidecar(before: seq<Event>, own: Event, sidecar: Event, c: Command)
    requires IsOwn(own, c) && IsSidecar(sidecar, c) && KindOf(c) != SidecarKind
    requires !Consumed(before, KindOf(c), KeyOf(c))
    ensures AddsEvents(before, Journaled(before + [own], sidecar), c)
  {
    assert Journaled(before + [own], sidecar)[|before|] == own;
  }

  lemma TransitionAddsEvents(db: Db, c: Command)
    requires c.AdvancePhase? && !Consumed(db.journal, CycleKind, KeyOf(c))
    ensures AddsEvents(db.journal, Transition(db, c.cycle, c.from, c.to).journal, c)
  {
    var own := Event(db.next, CycleKind, c.cycle, KeyOf(c), PhaseTransitioned(c.from, c.to));
    assert Journaled(db.journal, own) == db.journal + [own];
    WithSidecar(db.journal, own, Event(db.next + 1, SidecarKind, c.cycle, SidecarKey(c.cycle, c.from, c.to),
                                       PhaseRecorded(c.to, c.from)), c);
  }

  lemma PhaseAddsEvents(db: Db, c: Command)
    requires c.AdvancePhase? && !Consumed(db.journal, CycleKind, KeyOf(c))
    ensures AddsEvents(db.journal, Advance(db, c.cycle, c.from, c.to).db.journal, c)
  {
    TransitionAddsEvents(db.(cycles := MoveCycle(db.cycles, c.cycle, c.from, c.to)), c);
  }

  // Dispatch rounds

  /** What one started row adds: nothing, or its own dispatch event. */
  lemma StartRowJournal(db: Db, row: TaskRow)
    ensures var before, after := db.journal, StartRow(db, row).db.journal;
            after == before
            || (|after| == |before| + 1 && after == before + [after[|before|]] && IsDispatch(after[|before|])
                && after[|before|].aggregate == row.id)
  {
  }

  /** The events a round adds belong to the tasks it starts. */
  ghost predicate AddsDispatches(before: seq<Event>, after: seq<Event>) {
    before <= after && forall i | |before| <= i < |after| :: IsDispatch(after[i])
  }

  lemma {:induction false} StartRowsJournal(db: Db, rows: seq<TaskRow>)
    ensures AddsDispatches(db.journal, StartRows(db, rows).db.journal)
  {
    if rows == [] {
    } else {
      StartRowsJournal(db, rows[..|rows| - 1]);
      StartRowJournal(StartRows(db, rows[..|rows| - 1]).db, rows[|rows| - 1]);
    }
  }

  /** The rows a command is about to dispatch. */
  function RowsToStart(db: Db, c: Command): seq<TaskRow> {
    if c.DispatchRound? && !Consumed(db.journal, DispatchKind, c.key)
    then Limit(QueuedRows(db, db.tasks, c.scope), c.max)
    else []
  }

  lemma RoundJournal(db: Db, c: Command)
    requires c.DispatchRound? && !Consumed(db.journal, DispatchKind, c.key)
    ensures var before, after := StartRows(db, RowsToStart(db, c)).db.journal, Step(db, c).db.journal;
            && AddsDispatches(db.journal, before)
            && |after| == |before| + 1 && after == before + [after[|before|]]
            && IsOwn(after[|before|], c)
            && !Consumed(before, DispatchKind, c.key)
  {
    StartRowsJournal(db, RowsToStart(db, c));
    var before := StartRows(db, RowsToStart(db, c)).db.journal;
    assert forall i :: 0 <= i < |before| && before[i].kind == DispatchKind ==> before[i] == db.journal[i];
  }

  lemma RoundAddsEvents(db: Db, c: Command)
    requires c.DispatchRound? && !Consumed(db.journal, DispatchKind, c.key)
    ensures AddsEvents(db.journal, Step(db, c).db.journal, c)
  {
    RoundJournal(db, c);
    RoundIsEvents(db.journal, StartRows(db, RowsToStart(db, c)).db.journal, Step(db, c).db.journal, c);
  }

  lemma RoundIsEvents(before: seq<Event>, mid: seq<Event>, after: seq<Event>, c: Command)
    requires c.DispatchRound? && !Consumed(before, DispatchKind, c.key) && AddsDispatches(before, mid)
    requires |after| == |mid| + 1 && after == mid + [after[|mid|]] && IsOwn(after[|mid|], c)
    ensures AddsEvents(before, after, c)
  {
    assert forall i | |before| <= i < |mid| :: after[i] == mid[i];
  }

  /** What any step adds to the journal. */
  lemma StepAddsEvents(db: Db, c: Command)
    ensures AddsEvents(db.journal, Step(db, c).db.journal, c)
  {
    if !Invalid(c) && !Consumed(db.journal, KindOf(c), KeyOf(c)) {
      if c.DispatchRound? {
        RoundAddsEvents(db, c);
      } else if c.AdvancePhase? {
        PhaseAddsEvents(db, c);
      } else {
        EffectAddsOne(db, c);
        OneIsEvents(db.journal, Effect(db, c).db.journal, c);
      }
    }
  }

  lemma EffectAddsOne(db: Db, c: Command)
    requires !c.DispatchRound? && !c.AdvancePhase?
    ensures AddsOne(db.journal, Effect(db, c).db.journal, c)
  {
    if Creates(c) {
      CreationAddsOne(db, c);
    } else if ReportsOnTask(c) {
      ReportAddsOne(db, c);
    } else {
      CycleOrTaskAddsOne(db, c);
    }
  }

  /** Carried out: not rejected and not skipped. */
  predicate Effective(db: Db, c: Command) {
    Step(db, c).outcome.Accepted? && !Step(db, c).outcome.idempotentSkip
  }

  lemma ReplyShape(db: Db, c: Command)
    ensures Effect(db, c).outcome.Rejected? ==> Effect(db, c).db == db
    ensures Effect(db, c).outcome.Accepted? ==> !Effect(db, c).outcome.idempotentSkip
  {
  }

  /** A command takes effect exactly when it consumes its key. */
  lemma EffectConsumesKey(db: Db, c: Command)
    ensures Effective(db, c) <==> Step(db, c).db.journal != db.journal
    ensures Effective(db, c) <==>
            !Consumed(db.journal, KindOf(c), KeyOf(c)) && Consumed(Step(db, c).db.journal, KindOf(c), KeyOf(c))
  {
    StepAddsEvents(db, c);
    StepJournal(db, c);
    ReplyShape(db, c);
  }
}
