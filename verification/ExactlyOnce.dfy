/** At-least-once delivery of commands has exactly-once effect. */
module ExactlyOnce {
  import opened Text
  import opened ControlPlane
  import opened CommandSpec

  predicate Accepts(db: Db, c: Command) {
    Step(db, c).outcome.Accepted?
  }

  lemma {:induction false} StartRowsKeepJournal(db: Db, rows: seq<TaskRow>)
    ensures db.journal <= StartRows(db, rows).db.journal
  {
    if rows == [] {
    } else {
      StartRowsKeepJournal(db, rows[..|rows| - 1]);
      var before := StartRows(db, rows[..|rows| - 1]).db;
      var row := rows[|rows| - 1];
      if HasQueued(before.tasks, row.id) {
        assert before.journal <= StartRow(before, row).db.journal;
      }
    }
  }

  lemma ConsumedGrows(a: seq<Event>, b: seq<Event>, kind: AggregateKind, key: string)
    requires a <= b && Consumed(a, kind, key)
    ensures Consumed(b, kind, key)
  {
    var i :| 0 <= i < |a| && a[i].kind == kind && a[i].key == key;
    assert b[i] == a[i];
  }

  /** The journal is append-only, and an accepted command has its key in it. */
  lemma StepJournal(db: Db, c: Command)
    ensures db.journal <= Step(db, c).db.journal
    ensures Accepts(db, c) ==> Consumed(Step(db, c).db.journal, KindOf(c), KeyOf(c))
    ensures !Accepts(db, c) ==> Step(db, c).db == db
  {
    if c.DispatchRound? {
      StartRowsKeepJournal(db, Limit(QueuedRows(db, db.tasks, c.scope), c.max));
    }
  }

  /** A command refused in one way changes nothing, whichever command it is. */
  lemma RejectionChangesNothing(db: Db, c: Command)
    requires Step(db, c).outcome.Rejected?
    ensures Step(db, c).db == db
  {
    StepJournal(db, c);
  }

  lemma {:induction false} RunJournal(db: Db, commands: seq<Command>)
    ensures db.journal <= Run(db, commands).journal
  {
    if commands == [] {
    } else {
      var before := commands[..|commands| - 1];
      RunJournal(db, before);
      StepJournal(Run(db, before), commands[|commands| - 1]);
    }
  }

  lemma {:induction false} RunSplit(db: Db, first: seq<Command>, second: seq<Command>)
    ensures Run(db, first + second) == Run(Run(db, first), second)
  {
    if second == [] {
      assert first + second == first;
    } else {
      var rest := second[..|second| - 1];
      assert (first + second)[..|first + second| - 1] == first + rest;
      RunSplit(db, first, rest);
    }
  }

  lemma RunOne(db: Db, c: Command)
    ensures Run(db, [c]) == Step(db, c).db
  {
    assert [c][..0] == [];
  }

  /** Once accepted, always skipped: no later delivery of the same command has
      any effect, not even on the id counter. */
  lemma RedeliveryIsSkipped(db: Db, c: Command, later: seq<Command>)
    requires Accepts(db, c)
    ensures var now := Run(Step(db, c).db, later);
            Step(now, c) == Reply(now, SKIPPED)
  {
    StepJournal(db, c);
    RunJournal(Step(db, c).db, later);
    ConsumedGrows(Step(db, c).db.journal, Run(Step(db, c).db, later).journal, KindOf(c), KeyOf(c));
  }

  /** Some delivery of `c` within `commands`, run from `db`, was accepted. */
  predicate AcceptedIn(db: Db, commands: seq<Command>, c: Command) {
    exists i :: 0 <= i < |commands| && commands[i] == c && Accepts(Run(db, commands[..i]), c)
  }

  /** `many` is `once` with repeats of already accepted commands put in anywhere. */
  predicate Redelivers(db: Db, once: seq<Command>, many: seq<Command>)
    decreases |many|
  {
    if many == [] then once == []
    else
      var c := many[|many| - 1];
      var rest := many[..|many| - 1];
      || (once != [] && once[|once| - 1] == c && Redelivers(db, once[..|once| - 1], rest))
      || (AcceptedIn(db, once, c) && Redelivers(db, once, rest))
  }

  lemma RunThrough(db: Db, commands: seq<Command>, i: nat)
    requires i < |commands|
    ensures Run(db, commands) == Run(Step(Run(db, commands[..i]), commands[i]).db, commands[i + 1..])
  {
    var c, later := commands[i], commands[i + 1..];
    assert commands == commands[..i] + ([c] + later);
    RunSplit(db, commands[..i], [c] + later);
    RunSplit(Run(db, commands[..i]), [c], later);
    RunOne(Run(db, commands[..i]), c);
  }

  lemma AcceptedThenSkipped(db: Db, commands: seq<Command>, c: Command)
    requires AcceptedIn(db, commands, c)
    ensures Step(Run(db, commands), c) == Reply(Run(db, commands), SKIPPED)
  {
    var i :| 0 <= i < |commands| && commands[i] == c && Accepts(Run(db, commands[..i]), c);
    RunThrough(db, commands, i);
    RedeliveryIsSkipped(Run(db, commands[..i]), c, commands[i + 1..]);
  }

  /** Main result: repeats of accepted commands, anywhere later and any number
      of times, leave the whole store as if each command had come once. */
  lemma {:induction false} ExactlyOnceEffect(db: Db, once: seq<Command>, many: seq<Command>)
    requires Redelivers(db, once, many)
    ensures Run(db, many) == Run(db, once)
    decreases |many|
  {
    if many == [] {
    } else {
      var c := many[|many| - 1];
      var rest := many[..|many| - 1];
      if once != [] && once[|once| - 1] == c && Redelivers(db, once[..|once| - 1], rest) {
        ExactlyOnceEffect(db, once[..|once| - 1], rest);
      } else {
        ExactlyOnceEffect(db, once, rest);
        AcceptedThenSkipped(db, once, c);
      }
    }
  }
}
