/** Which of the event ids a dispatch round reports belong to an event. */
module DispatchReports {
  import opened Text
  import opened ControlPlane
  import opened CommandSpec
  import opened Attempts
  import opened DispatchLaw
  import opened ExactlyOnce
  import opened TableChanges
  import opened StepEvents
  import opened KeyScope

  predicate HasId(journal: seq<Event>, id: nat) {
    exists i :: 0 <= i < |journal| && journal[i].id == id
  }

  /** The task has been dispatched before: its dispatch key is on its own event. */
  predicate DispatchedBefore(journal: seq<Event>, task: nat) {
    exists i :: 0 <= i < |journal| && journal[i].kind == TaskKind && journal[i].aggregate == task
                && journal[i].key == DispatchKey(task)
  }

  lemma NewIdAt(before: seq<Event>, e: Event, next: nat)
    requires JournalBelow(before, next) && e.id >= next
    ensures HasId(Journaled(before, e), e.id) <==> !Conflicts(before, e)
  {
    if !Conflicts(before, e) {
      assert Journaled(before, e)[|before|].id == e.id;
    }
  }

  /** A started row reports an id that is in the journal exactly when the task
      has not been dispatched before. */
  lemma StartReports(db: Db, row: TaskRow)
    requires HasQueued(db.tasks, row.id) && JournalBelow(db.journal, db.next)
    ensures StartRow(db, row).eventIds == [db.next + 1]
    ensures HasId(StartRow(db, row).db.journal, db.next + 1) <==> !DispatchedBefore(db.journal, row.id)
  {
    var e := Event(db.next + 1, TaskKind, row.id, DispatchKey(row.id),
                   TaskDispatched(db.next, NextIndex(db.attempts, row.id)));
    NewIdAt(db.journal, e, db.next);
    assert StartRow(db, row).db.journal == Journaled(db.journal, e);
  }

  /** Events added later have later ids, and leave the answer for earlier ones. */
  lemma IdsStay(before: seq<Event>, after: seq<Event>, id: nat)
    requires before <= after && forall i | |before| <= i < |after| :: after[i].id != id
    ensures HasId(after, id) <==> HasId(before, id)
  {
    if HasId(before, id) {
      var i :| 0 <= i < |before| && before[i].id == id;
      assert after[i].id == id;
    }
  }

  lemma RowsBelow(db: Db, rows: seq<TaskRow>)
    requires IdsBelow(db)
    ensures JournalBelow(StartRows(db, rows).db.journal, StartRows(db, rows).db.next)
  {
    StartRowsQuiet(db, rows, "");
    JournalStaysBelow(db, StartRows(db, rows).db, Quiet, "");
  }

  /** Rows that do not contain a task leave its dispatch history alone. */
  lemma {:induction false} RowsKeepOthers(db: Db, rows: seq<TaskRow>, task: nat)
    requires forall t <- rows :: t.id != task
    ensures DispatchedBefore(StartRows(db, rows).db.journal, task) <==> DispatchedBefore(db.journal, task)
  {
    if rows == [] {
    } else {
      var rest, row := rows[..|rows| - 1], rows[|rows| - 1];
      assert row in rows && forall t <- rest :: t in rows;
      RowsKeepOthers(db, rest, task);
      OneKeepsOthers(StartRows(db, rest).db, row, task);
    }
  }

  lemma OneKeepsOthers(db: Db, row: TaskRow, task: nat)
    requires task != row.id
    ensures DispatchedBefore(StartRow(db, row).db.journal, task) <==> DispatchedBefore(db.journal, task)
  {
    var before, after := db.journal, StartRow(db, row).db.journal;
    assert forall i | 0 <= i < |before| :: after[i] == before[i];
  }

  /** Each reported id goes with its row. */
  ghost predicate Reported(db: Db, rows: seq<TaskRow>, r: Round) {
    && |r.eventIds| == |rows|
    && forall i | 0 <= i < |rows| ::
         r.eventIds[i] < r.db.next
         && (HasId(r.db.journal, r.eventIds[i]) <==> !DispatchedBefore(db.journal, rows[i].id))
  }

  lemma ReportedExtends(db: Db, rest: seq<TaskRow>, row: TaskRow, before: Round)
    requires Reported(db, rest, before) && HasQueued(before.db.tasks, row.id)
    requires JournalBelow(before.db.journal, before.db.next)
    requires DispatchedBefore(before.db.journal, row.id) <==> DispatchedBefore(db.journal, row.id)
    ensures var last := StartRow(before.db, row);
            Reported(db, rest + [row], Round(last.db, before.eventIds + last.eventIds))
  {
    var last := StartRow(before.db, row);
    StartReports(before.db, row);
    forall i | 0 <= i < |rest|
      ensures HasId(last.db.journal, before.eventIds[i]) <==> HasId(before.db.journal, before.eventIds[i])
    {
      IdsStay(before.db.journal, last.db.journal, before.eventIds[i]);
    }
  }

  /** Of the ids the loop collects, those are in the journal whose task had
      never been dispatched. */
  lemma {:induction false} RoundReports(db: Db, rows: seq<TaskRow>)
    requires Coupled(db) && IdsBelow(db) && Dispatchable(db, rows)
    ensures Reported(db, rows, StartRows(db, rows))
  {
    if rows == [] {
    } else {
      var rest, row := rows[..|rows| - 1], rows[|rows| - 1];
      assert rows == rest + [row];
      RowStillQueued(db, rest, row);
      RoundReports(db, rest);
      RowsBelow(db, rest);
      LastIsNewest(rest, row);
      RowsKeepOthers(db, rest, row.id);
      ReportedExtends(db, rest, row, StartRows(db, rest));
    }
  }

  lemma ClosingKeepsIds(before: seq<Event>, closing: Event, ids: seq<nat>)
    requires forall i | 0 <= i < |ids| :: ids[i] < closing.id
    ensures forall i | 0 <= i < |ids| :: HasId(before + [closing], ids[i]) <==> HasId(before, ids[i])
    ensures HasId(before + [closing], closing.id)
  {
    forall i | 0 <= i < |ids| ensures HasId(before + [closing], ids[i]) <==> HasId(before, ids[i]) {
      IdsStay(before, before + [closing], ids[i]);
    }
    assert (before + [closing])[|before|].id == closing.id;
  }

  /** The reply of a round, event by event. */
  ghost predicate ReportedInReply(journal: seq<Event>, rows: seq<TaskRow>, ids: seq<nat>, after: seq<Event>) {
    && |ids| == |rows| + 1 && HasId(after, ids[|rows|])
    && forall i | 0 <= i < |rows| :: HasId(after, ids[i]) <==> !DispatchedBefore(journal, rows[i].id)
  }

  lemma ClosingGoesIn(db: Db, aggregate: nat, key: string, payload: Payload)
    requires !Consumed(db.journal, DispatchKind, key)
    ensures AppendEvent(db, DispatchKind, aggregate, key, payload).journal
            == db.journal + [Event(db.next, DispatchKind, aggregate, key, payload)]
  {
    assert !Conflicts(db.journal, Event(db.next, DispatchKind, aggregate, key, payload));
  }

  lemma ReplyOf(db: Db, key: string, cycle: Option<nat>, max: nat, rows: seq<TaskRow>)
    requires rows == Limit(QueuedRows(db, db.tasks, cycle), max)
    requires !Consumed(StartRows(db, rows).db.journal, DispatchKind, key)
    ensures var r, reply := StartRows(db, rows), RunRound(db, key, cycle, max);
            && reply.outcome == Accepted(|r.eventIds| > 0, false, r.eventIds + [r.db.next + 1])
            && reply.db.journal ==
               r.db.journal + [Event(r.db.next + 1, DispatchKind, r.db.next, key,
                                     RoundCompleted(|r.eventIds|, cycle, max))]
  {
    var r := StartRows(db, rows);
    ClosingGoesIn(r.db.(next := r.db.next + 1), r.db.next, key, RoundCompleted(|r.eventIds|, cycle, max));
  }

  lemma ReplyExtends(journal: seq<Event>, rows: seq<TaskRow>, r: Round, ids: seq<nat>, after: seq<Event>)
    requires |r.eventIds| == |rows| && ids == r.eventIds + [r.db.next + 1]
    requires forall i | 0 <= i < |rows| ::
      r.eventIds[i] < r.db.next && (HasId(r.db.journal, r.eventIds[i]) <==> !DispatchedBefore(journal, rows[i].id))
    requires |after| == |r.db.journal| + 1 && after == r.db.journal + [after[|r.db.journal|]]
    requires after[|r.db.journal|].id == r.db.next + 1
    ensures ReportedInReply(journal, rows, ids, after)
  {
    ClosingKeepsIds(r.db.journal, after[|r.db.journal|], r.eventIds);
  }

  lemma RoundReplyReports(db: Db, key: string, cycle: Option<nat>, max: nat, rows: seq<TaskRow>)
    requires Coupled(db) && IdsBelow(db) && rows == Limit(QueuedRows(db, db.tasks, cycle), max)
    requires !Consumed(StartRows(db, rows).db.journal, DispatchKind, key)
    ensures var reply := RunRound(db, key, cycle, max);
            reply.outcome.Accepted? && ReportedInReply(db.journal, rows, reply.outcome.eventIds, reply.db.journal)
  {
    var r, reply := StartRows(db, rows), RunRound(db, key, cycle, max);
    OldestFirst(db, cycle, max);
    RoundReports(db, rows);
    ReplyOf(db, key, cycle, max, rows);
    ReplyExtends(db.journal, rows, r, reply.outcome.eventIds, reply.db.journal);
  }

  lemma FreshRound(db: Db, key: string, scope: Option<nat>, max: nat)
    requires !Consumed(db.journal, DispatchKind, key)
    ensures Step(db, DispatchRound(key, scope, max)) == RunRound(db, key, scope, max)
  {
  }

  lemma FreshRows(db: Db, c: Command)
    requires c.DispatchRound? && !Consumed(db.journal, DispatchKind, c.key)
    ensures RowsToStart(db, c) == Limit(QueuedRows(db, db.tasks, c.scope), c.max)
  {
  }

  /** Main result: of the ids a round's reply carries, the last is the closing
      event's, and a started task's is in the journal exactly when that task had
      never been dispatched: after a retry it is the id of no event. */
  lemma ReplyReports(db: Db, c: Command)
    requires Coupled(db) && IdsBelow(db) && c.DispatchRound? && !Consumed(db.journal, DispatchKind, c.key)
    ensures Step(db, c).outcome.Accepted?
    ensures ReportedInReply(db.journal, RowsToStart(db, c), Step(db, c).outcome.eventIds, Step(db, c).db.journal)
  {
    FreshRound(db, c.key, c.scope, c.max);
    FreshRows(db, c);
    RoundJournal(db, c);
    RoundReplyReports(db, c.key, c.scope, c.max, RowsToStart(db, c));
  }
}
