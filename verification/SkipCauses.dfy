/** What a skip says about the command that was skipped. */
module SkipCauses {
  import opened Text
  import opened ControlPlane
  import opened CommandSpec
  import opened ExactlyOnce
  import opened StepEvents

  /** The `i`th delivery of the run was carried out. */
  predicate TakesEffect(commands: seq<Command>, i: nat)
    requires i < |commands|
  {
    Effective(Run(EMPTY, commands[..i]), commands[i])
  }

  predicate SameKey(c: Command, kind: AggregateKind, key: string) {
    KindOf(c) == kind && KeyOf(c) == key
  }

  /** The first event under a kind and key: the one that consumed the key. */
  function FirstUnder(journal: seq<Event>, kind: AggregateKind, key: string): (e: Option<Event>)
    ensures e.Some? <==> Consumed(journal, kind, key)
    ensures e.Some? ==> e.value in journal && e.value.kind == kind && e.value.key == key
  {
    if journal == [] then None
    else
      var rest, last := journal[..|journal| - 1], journal[|journal| - 1];
      var before := FirstUnder(rest, kind, key);
      assert forall i | 0 <= i < |rest| :: rest[i] == journal[i];
      if before.Some? then before
      else if last.kind == kind && last.key == key then Some(last)
      else None
  }

  lemma {:induction false} FirstStays(before: seq<Event>, after: seq<Event>, kind: AggregateKind, key: string)
    requires before <= after && Consumed(before, kind, key)
    ensures FirstUnder(after, kind, key) == FirstUnder(before, kind, key)
    decreases |after|
  {
    if |after| == |before| {
      assert after == before;
    } else {
      FirstStays(before, after[..|after| - 1], kind, key);
    }
  }

  /** A command's own event comes first under its key. */
  lemma OwnComesFirst(before: seq<Event>, after: seq<Event>, c: Command)
    requires AddsEvents(before, after, c) && after != before
    ensures FirstUnder(after, KindOf(c), KeyOf(c)).Some?
    ensures !FirstUnder(after, KindOf(c), KeyOf(c)).value.payload.TaskDispatched?
  {
    assert forall k | 0 <= k < |before| :: after[k] == before[k];
    var first := FirstUnder(after, KindOf(c), KeyOf(c)).value;
    var i :| 0 <= i < |after| && after[i] == first;
    assert IsOwn(first, c);
  }

  /** A key newly consumed is the command's own or that of a dispatched task. */
  lemma NewlyConsumed(before: seq<Event>, after: seq<Event>, c: Command, kind: AggregateKind, key: string)
    requires AddsEvents(before, after, c) && kind != SidecarKind
    requires Consumed(after, kind, key) && !Consumed(before, kind, key)
    ensures SameKey(c, kind, key) || FirstUnder(after, kind, key).value.payload.TaskDispatched?
  {
    assert forall k | 0 <= k < |before| :: after[k] == before[k];
    var first := FirstUnder(after, kind, key).value;
    var i :| 0 <= i < |after| && after[i] == first;
  }

  /** Some delivery of the run with this kind and key was carried out. */
  predicate KeyTookEffect(commands: seq<Command>, kind: AggregateKind, key: string) {
    exists i :: 0 <= i < |commands| && SameKey(commands[i], kind, key) && TakesEffect(commands, i)
  }

  lemma EffectInPrefix(commands: seq<Command>, n: nat, i: nat)
    requires i < n <= |commands|
    ensures TakesEffect(commands[..n], i) <==> TakesEffect(commands, i)
  {
    assert commands[..n][..i] == commands[..i] && commands[..n][i] == commands[i];
  }

  lemma PrefixTookEffect(commands: seq<Command>, n: nat, kind: AggregateKind, key: string)
    requires n <= |commands| && KeyTookEffect(commands[..n], kind, key)
    ensures KeyTookEffect(commands, kind, key)
  {
    var i :| 0 <= i < n && SameKey(commands[..n][i], kind, key) && TakesEffect(commands[..n], i);
    EffectInPrefix(commands, n, i);
    assert commands[..n][i] == commands[i];
  }

  /** A consumed key was consumed by a command with that kind and key taking
      effect, exactly when its first event is not that of a dispatched task. */
  lemma {:induction false} KeyProvenance(commands: seq<Command>, kind: AggregateKind, key: string)
    requires Consumed(Run(EMPTY, commands).journal, kind, key) && kind != SidecarKind
    ensures KeyTookEffect(commands, kind, key)
            <==> !FirstUnder(Run(EMPTY, commands).journal, kind, key).value.payload.TaskDispatched?
  {
    if KeyTookEffect(commands, kind, key) {
      var i :| 0 <= i < |commands| && SameKey(commands[i], kind, key) && TakesEffect(commands, i);
      var db := Run(EMPTY, commands[..i]);
      EffectConsumesKey(db, commands[i]);
      StepAddsEvents(db, commands[i]);
      OwnComesFirst(db.journal, Step(db, commands[i]).db.journal, commands[i]);
      RunThrough(EMPTY, commands, i);
      RunJournal(Step(db, commands[i]).db, commands[i + 1..]);
      FirstStays(Step(db, commands[i]).db.journal, Run(EMPTY, commands).journal, kind, key);
    }
    if commands != [] {
      ConsumptionHasCause(commands, kind, key);
    }
  }

  lemma {:induction false} ConsumptionHasCause(commands: seq<Command>, kind: AggregateKind, key: string)
    requires Consumed(Run(EMPTY, commands).journal, kind, key) && kind != SidecarKind
    ensures KeyTookEffect(commands, kind, key)
            || FirstUnder(Run(EMPTY, commands).journal, kind, key).value.payload.TaskDispatched?
  {
    var n := |commands| - 1;
    var rest, c := commands[..n], commands[n];
    var db := Run(EMPTY, rest);
    if Consumed(db.journal, kind, key) {
      ConsumptionHasCause(rest, kind, key);
      StepJournal(db, c);
      FirstStays(db.journal, Step(db, c).db.journal, kind, key);
      if KeyTookEffect(rest, kind, key) {
        PrefixTookEffect(commands, n, kind, key);
      }
    } else {
      StepAddsEvents(db, c);
      EffectConsumesKey(db, c);
      NewlyConsumed(db.journal, Step(db, c).db.journal, c, kind, key);
      assert Effective(db, c) == TakesEffect(commands, n);
    }
  }

  /** At most one delivery in a run takes effect under one kind and key. */
  lemma OneEffectPerKey(commands: seq<Command>, i: nat, j: nat)
    requires i < j < |commands| && SameKey(commands[j], KindOf(commands[i]), KeyOf(commands[i]))
    requires TakesEffect(commands, i)
    ensures !TakesEffect(commands, j)
  {
    var db := Run(EMPTY, commands[..i]);
    RunThrough(EMPTY, commands[..j], i);
    assert commands[..j][..i] == commands[..i];
    StepJournal(db, commands[i]);
    RunJournal(Step(db, commands[i]).db, commands[..j][i + 1..]);
    ConsumedGrows(Step(db, commands[i]).db.journal, Run(EMPTY, commands[..j]).journal,
                  KindOf(commands[i]), KeyOf(commands[i]));
  }

  lemma SameDelivery(commands: seq<Command>, i: nat, j: nat)
    requires i < |commands| && j < |commands| && TakesEffect(commands, i) && TakesEffect(commands, j)
    requires KindOf(commands[i]) == KindOf(commands[j]) && KeyOf(commands[i]) == KeyOf(commands[j])
    ensures i == j
  {
    if i < j {
      OneEffectPerKey(commands, i, j);
    } else if j < i {
      OneEffectPerKey(commands, j, i);
    }
  }

  predicate TookEffect(commands: seq<Command>, c: Command) {
    exists i :: 0 <= i < |commands| && commands[i] == c && TakesEffect(commands, i)
  }

  /** A different command with the same kind and key was carried out. */
  predicate RivalTookEffect(commands: seq<Command>, c: Command) {
    exists j :: 0 <= j < |commands| && commands[j] != c && SameKey(commands[j], KindOf(c), KeyOf(c))
                && TakesEffect(commands, j)
  }

  lemma NoRivalOfDone(commands: seq<Command>, c: Command)
    ensures !(TookEffect(commands, c) && RivalTookEffect(commands, c))
  {
    if TookEffect(commands, c) && RivalTookEffect(commands, c) {
      var i :| 0 <= i < |commands| && commands[i] == c && TakesEffect(commands, i);
      var j :| 0 <= j < |commands| && commands[j] != c && SameKey(commands[j], KindOf(c), KeyOf(c))
               && TakesEffect(commands, j);
      SameDelivery(commands, i, j);
    }
  }

  /** Main result: a command whose key is consumed, and which is therefore
      skipped, was itself carried out exactly when no different command took
      effect under its kind and key and the key was not consumed by the dispatch
      of a task. */
  lemma SkipMeansDone(commands: seq<Command>, c: Command)
    requires Consumed(Run(EMPTY, commands).journal, KindOf(c), KeyOf(c))
    ensures !Invalid(c) ==> Step(Run(EMPTY, commands), c) == Reply(Run(EMPTY, commands), SKIPPED)
    ensures TookEffect(commands, c) <==>
            && !RivalTookEffect(commands, c)
            && !FirstUnder(Run(EMPTY, commands).journal, KindOf(c), KeyOf(c)).value.payload.TaskDispatched?
  {
    KeyProvenance(commands, KindOf(c), KeyOf(c));
    NoRivalOfDone(commands, c);
    if !Invalid(c) {
      ConsumedSkips(Run(EMPTY, commands), c);
    }
  }

  lemma ConsumedSkips(db: Db, c: Command)
    requires Consumed(db.journal, KindOf(c), KeyOf(c)) && !Invalid(c)
    ensures Step(db, c) == Reply(db, SKIPPED)
  {
  }

  lemma RivalStays(commands: seq<Command>, j: nat, c: Command)
    requires j < |commands| && TakesEffect(commands, j)
    requires commands[j] != c && SameKey(commands[j], KindOf(c), KeyOf(c))
    ensures RivalTookEffect(commands + [c], c)
  {
    assert (commands + [c])[..j] == commands[..j] && (commands + [c])[j] == commands[j];
    assert TakesEffect(commands + [c], j);
  }

  /** A command that shares its kind and key with a different one already carried
      out is skipped, and has not been carried out by the end of the run. */
  lemma SharedKeySwallows(commands: seq<Command>, j: nat, c: Command)
    requires j < |commands| && TakesEffect(commands, j) && !Invalid(c)
    requires commands[j] != c && SameKey(commands[j], KindOf(c), KeyOf(c))
    ensures Step(Run(EMPTY, commands), c) == Reply(Run(EMPTY, commands), SKIPPED)
    ensures !TookEffect(commands + [c], c)
  {
    EffectiveThenConsumed(commands, j);
    ConsumedSkips(Run(EMPTY, commands), c);
    RivalStays(commands, j, c);
    NoRivalOfDone(commands + [c], c);
  }

  lemma EffectiveThenConsumed(commands: seq<Command>, j: nat)
    requires j < |commands| && TakesEffect(commands, j)
    ensures Consumed(Run(EMPTY, commands).journal, KindOf(commands[j]), KeyOf(commands[j]))
  {
    var db := Run(EMPTY, commands[..j]);
    EffectConsumesKey(db, commands[j]);
    RunThrough(EMPTY, commands, j);
    RunJournal(Step(db, commands[j]).db, commands[j + 1..]);
    ConsumedGrows(Step(db, commands[j]).db.journal, Run(EMPTY, commands).journal,
                  KindOf(commands[j]), KeyOf(commands[j]));
  }
}
