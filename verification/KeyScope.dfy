/** How far one idempotency key names one event, and one node per milestone. */
module KeyScope {
  import opened Text
  import opened ControlPlane
  import opened CommandSpec
  import opened Attempts
  import opened DispatchLaw
  import opened JournalFold
  import opened ExactlyOnce
  import opened StepEvents

  /** No two journal rows of this kind carry the same key. */
  ghost predicate UniqueUnder(journal: seq<Event>, kind: AggregateKind) {
    forall i, j :: 0 <= i < j < |journal| && journal[i].kind == kind && journal[j].kind == kind ==>
      journal[i].key != journal[j].key
  }

  /** Some other aggregate already owns the key a dispatch of `task` will use. */
  predicate KeyTaken(journal: seq<Event>, task: nat) {
    exists i :: 0 <= i < |journal| && journal[i].kind == TaskKind
                && journal[i].key == DispatchKey(task) && journal[i].aggregate != task
  }

  lemma DispatchKeyInjective(a: nat, b: nat)
    requires DispatchKey(a) == DispatchKey(b)
    ensures a == b
  {
    assert DispatchKey(a)[9..] == Decimal(a) && DispatchKey(b)[9..] == Decimal(b);
    DecimalInjective(a, b);
  }

  /** An event of a step's own kind does not repeat a key. */
  lemma OwnEventUnique(before: seq<Event>, after: seq<Event>, c: Command, kind: AggregateKind)
    requires AddsEvents(before, after, c) && UniqueUnder(before, kind) && kind != SidecarKind
    requires kind == TaskKind ==> !c.DispatchRound?
    ensures UniqueUnder(after, kind)
  {
    forall i, j | 0 <= i < j < |after| && after[i].kind == kind && after[j].kind == kind
      ensures after[i].key != after[j].key
    {
      assert forall k | |before| <= k < |after| && after[k].kind == kind :: IsOwn(after[k], c);
      assert i < |before| ==> before[i] == after[i];
      assert j < |before| ==> before[j] == after[j];
    }
  }

  // Sidecar records

  /** Each sidecar record follows a transition under the key of the same tail. */
  ghost predicate SidecarsPaired(journal: seq<Event>) {
    forall i | 0 <= i < |journal| && journal[i].kind == SidecarKind ::
      PairedKey(journal, journal[i].key)
  }

  predicate PairedKey(journal: seq<Event>, key: string) {
    |key| >= 14 && Consumed(journal, CycleKind, "phase-" + key[14..])
  }

  lemma SidecarKeyTail(cycle: nat, from: CyclePhase, to: CyclePhase)
    ensures |SidecarKey(cycle, from, to)| >= 14
    ensures "phase-" + SidecarKey(cycle, from, to)[14..] == PhaseKey(cycle, from, to)
  {
    assert SidecarKey(cycle, from, to)[14..] == PhaseTail(cycle, from, to);
  }

  lemma SidecarsStayPaired(journal: seq<Event>, after: seq<Event>)
    requires SidecarsPaired(journal) && journal <= after
    requires forall i | |journal| <= i < |after| && after[i].kind == SidecarKind :: PairedKey(after, after[i].key)
    ensures SidecarsPaired(after)
  {
    forall i | 0 <= i < |after| && after[i].kind == SidecarKind ensures PairedKey(after, after[i].key) {
      if i < |journal| {
        assert after[i] == journal[i];
        ConsumedGrows(journal, after, CycleKind, "phase-" + after[i].key[14..]);
      }
    }
  }

  lemma SidecarPairs(before: seq<Event>, after: seq<Event>, c: Command)
    requires AddsEvents(before, after, c) && SidecarsPaired(before)
    ensures SidecarsPaired(after)
  {
    forall i | |before| <= i < |after| && after[i].kind == SidecarKind ensures PairedKey(after, after[i].key) {
      assert IsSidecar(after[i], c);
      SidecarKeyTail(c.cycle, c.from, c.to);
    }
    SidecarsStayPaired(before, after);
  }

  lemma SidecarUnique(before: seq<Event>, after: seq<Event>, c: Command)
    requires AddsEvents(before, after, c) && SidecarsPaired(before) && UniqueUnder(before, SidecarKind)
    ensures UniqueUnder(after, SidecarKind)
  {
    forall i, j | 0 <= i < j < |after| && after[i].kind == SidecarKind && after[j].kind == SidecarKind
      ensures after[i].key != after[j].key
    {
      assert i < |before| ==> before[i] == after[i];
      if j < |before| {
        assert before[j] == after[j];
      } else {
        NewSidecarKey(before, after, c, i, j);
      }
    }
  }

  lemma NewSidecarKey(before: seq<Event>, after: seq<Event>, c: Command, i: nat, j: nat)
    requires AddsEvents(before, after, c) && SidecarsPaired(before)
    requires i < j < |after| && |before| <= j && after[i].kind == SidecarKind && after[j].kind == SidecarKind
    ensures after[i].key != after[j].key
  {
    assert forall k | |before| <= k < |after| && after[k].kind == SidecarKind :: IsSidecar(after[k], c);
    SidecarKeyTail(c.cycle, c.from, c.to);
    if i < |before| {
      assert before[i] == after[i] && PairedKey(before, before[i].key);
    }
  }

  lemma {:induction false} SidecarKeysUnique(commands: seq<Command>)
    ensures SidecarsPaired(Run(EMPTY, commands).journal) && UniqueUnder(Run(EMPTY, commands).journal, SidecarKind)
  {
    if commands == [] {
    } else {
      var db, c := Run(EMPTY, commands[..|commands| - 1]), commands[|commands| - 1];
      SidecarKeysUnique(commands[..|commands| - 1]);
      StepAddsEvents(db, c);
      SidecarPairs(db.journal, Step(db, c).db.journal, c);
      SidecarUnique(db.journal, Step(db, c).db.journal, c);
    }
  }

  // Dispatch rounds

  lemma DispatchesTakeNoKey(before: seq<Event>, after: seq<Event>, task: nat)
    requires AddsDispatches(before, after)
    ensures KeyTaken(after, task) <==> KeyTaken(before, task)
  {
    if KeyTaken(before, task) {
      var i :| 0 <= i < |before| && before[i].kind == TaskKind
               && before[i].key == DispatchKey(task) && before[i].aggregate != task;
      assert after[i] == before[i];
    }
    if KeyTaken(after, task) {
      var i :| 0 <= i < |after| && after[i].kind == TaskKind
               && after[i].key == DispatchKey(task) && after[i].aggregate != task;
      if i >= |before| {
        DispatchKeyInjective(after[i].aggregate, task);
      } else {
        assert before[i] == after[i];
      }
    }
  }

  /** One start keeps task keys unique exactly when its key is not taken. */
  lemma StartRowUnique(db: Db, row: TaskRow)
    requires UniqueUnder(db.journal, TaskKind) && HasQueued(db.tasks, row.id)
    ensures UniqueUnder(StartRow(db, row).db.journal, TaskKind) <==> !KeyTaken(db.journal, row.id)
  {
    var before, after := db.journal, StartRow(db, row).db.journal;
    StartRowJournal(db, row);
    if KeyTaken(before, row.id) {
      var i :| 0 <= i < |before| && before[i].kind == TaskKind
               && before[i].key == DispatchKey(row.id) && before[i].aggregate != row.id;
      forall j | 0 <= j < |before| && before[j].kind == TaskKind && before[j].key == DispatchKey(row.id)
        ensures j == i
      {
      }
      assert |after| == |before| + 1 && after[i] == before[i];
      assert after[i].key == after[|before|].key;
    } else if after != before {
      forall i | 0 <= i < |before| && before[i].kind == TaskKind ensures before[i].key != DispatchKey(row.id) {
      }
    }
  }

  lemma PrefixUnique(before: seq<Event>, after: seq<Event>, kind: AggregateKind)
    requires before <= after && UniqueUnder(after, kind)
    ensures UniqueUnder(before, kind)
  {
    forall i, j | 0 <= i < j < |before| && before[i].kind == kind && before[j].kind == kind
      ensures before[i].key != before[j].key
    {
      assert after[i] == before[i] && after[j] == before[j];
    }
  }

  lemma RowKeysUnique(start: seq<Event>, before: Db, row: TaskRow)
    requires AddsDispatches(start, before.journal) && HasQueued(before.tasks, row.id)
    ensures UniqueUnder(StartRow(before, row).db.journal, TaskKind)
            <==> UniqueUnder(before.journal, TaskKind) && !KeyTaken(start, row.id)
  {
    DispatchesTakeNoKey(start, before.journal, row.id);
    StartRowJournal(before, row);
    if UniqueUnder(StartRow(before, row).db.journal, TaskKind) {
      PrefixUnique(before.journal, StartRow(before, row).db.journal, TaskKind);
    }
    if UniqueUnder(before.journal, TaskKind) {
      StartRowUnique(before, row);
    }
  }

  /** When the round reaches a row, that row is still queued. */
  lemma RowStillQueued(db: Db, rest: seq<TaskRow>, row: TaskRow)
    requires Coupled(db) && Dispatchable(db, rest + [row])
    ensures Dispatchable(db, rest)
    ensures HasQueued(StartRows(db, rest).db.tasks, row.id)
  {
    RestDispatchable(db, rest, row);
    RoundHasEffect(db, rest);
    StillQueued(db.tasks, rest, row, StartRows(db, rest).db.tasks);
  }

  lemma {:induction false} RoundKeysUnique(db: Db, rows: seq<TaskRow>)
    requires Coupled(db) && Dispatchable(db, rows) && UniqueUnder(db.journal, TaskKind)
    ensures UniqueUnder(StartRows(db, rows).db.journal, TaskKind) <==> forall t <- rows :: !KeyTaken(db.journal, t.id)
  {
    if rows == [] {
    } else {
      var rest, row := rows[..|rows| - 1], rows[|rows| - 1];
      assert rows == rest + [row];
      assert forall t :: t in rows <==> t in rest || t == row;
      RowStillQueued(db, rest, row);
      RoundKeysUnique(db, rest);
      StartRowsJournal(db, rest);
      RowKeysUnique(db.journal, StartRows(db, rest).db, row);
    }
  }

  /** A step keeps (task, key) unique exactly when it does not dispatch a task
      whose dispatch key another aggregate already holds. */
  lemma StepKeysUnique(db: Db, c: Command)
    requires Coupled(db) && UniqueUnder(db.journal, TaskKind)
    ensures UniqueUnder(Step(db, c).db.journal, TaskKind)
            <==> forall t <- RowsToStart(db, c) :: !KeyTaken(db.journal, t.id)
  {
    if !c.DispatchRound? {
      StepAddsEvents(db, c);
      OwnEventUnique(db.journal, Step(db, c).db.journal, c, TaskKind);
    } else if !Consumed(db.journal, DispatchKind, c.key) {
      OldestFirst(db, c.scope, c.max);
      RoundKeysUnique(db, RowsToStart(db, c));
      RoundJournal(db, c);
      var before, after := StartRows(db, RowsToStart(db, c)).db.journal, Step(db, c).db.journal;
      LastOfOtherKind(before, after);
    }
  }

  lemma LastOfOtherKind(before: seq<Event>, after: seq<Event>)
    requires |after| == |before| + 1 && after == before + [after[|before|]] && after[|before|].kind != TaskKind
    ensures UniqueUnder(after, TaskKind) <==> UniqueUnder(before, TaskKind)
  {
    if UniqueUnder(after, TaskKind) {
      PrefixUnique(before, after, TaskKind);
    }
  }

  /** Every kind but `task`: the key alone names the event, in every run. */
  lemma {:induction false} KeysUnique(commands: seq<Command>, kind: AggregateKind)
    requires kind != TaskKind
    ensures UniqueUnder(Run(EMPTY, commands).journal, kind)
  {
    if kind == SidecarKind {
      SidecarKeysUnique(commands);
    } else if commands == [] {
    } else {
      var db, c := Run(EMPTY, commands[..|commands| - 1]), commands[|commands| - 1];
      KeysUnique(commands[..|commands| - 1], kind);
      StepAddsEvents(db, c);
      OwnEventUnique(db.journal, Step(db, c).db.journal, c, kind);
    }
  }

  // The `task` kind

  predicate LooksLikeDispatch(key: string) {
    StartsWith(key, "dispatch-")
  }

  ghost predicate LeavesDispatchKeys(commands: seq<Command>) {
    forall c <- commands :: KindOf(c) == TaskKind ==> !LooksLikeDispatch(KeyOf(c))
  }

  /** Keys of the dispatch form are only on their own task's events. */
  ghost predicate DispatchKeysOwned(journal: seq<Event>) {
    forall i :: 0 <= i < |journal| && journal[i].kind == TaskKind && LooksLikeDispatch(journal[i].key) ==>
      journal[i].key == DispatchKey(journal[i].aggregate)
  }

  lemma DispatchKeysStayOwned(before: seq<Event>, after: seq<Event>, c: Command)
    requires AddsEvents(before, after, c) && DispatchKeysOwned(before)
    requires KindOf(c) == TaskKind ==> !LooksLikeDispatch(KeyOf(c))
    ensures DispatchKeysOwned(after)
  {
    forall i | 0 <= i < |after| && after[i].kind == TaskKind && LooksLikeDispatch(after[i].key)
      ensures after[i].key == DispatchKey(after[i].aggregate)
    {
      assert i < |before| ==> before[i] == after[i];
    }
  }

  lemma OwnedKeyNotTaken(journal: seq<Event>, task: nat)
    requires DispatchKeysOwned(journal)
    ensures !KeyTaken(journal, task)
  {
    if KeyTaken(journal, task) {
      var i :| 0 <= i < |journal| && journal[i].kind == TaskKind
               && journal[i].key == DispatchKey(task) && journal[i].aggregate != task;
      assert DispatchKey(task)[..9] == "dispatch-";
      DispatchKeyInjective(journal[i].aggregate, task);
    }
  }

  /** If no task command uses a key of the dispatch form, the key alone names
      the event under `task` too: the journal meets the two-column unique index. */
  lemma {:induction false} TaskKeysUnique(commands: seq<Command>)
    requires LeavesDispatchKeys(commands)
    ensures UniqueUnder(Run(EMPTY, commands).journal, TaskKind)
    ensures DispatchKeysOwned(Run(EMPTY, commands).journal)
  {
    if commands == [] {
    } else {
      var rest, c := commands[..|commands| - 1], commands[|commands| - 1];
      assert c in commands && forall d <- rest :: d in commands;
      TaskKeysUnique(rest);
      ReachableCoupled(rest);
      var db := Run(EMPTY, rest);
      forall t <- RowsToStart(db, c) ensures !KeyTaken(db.journal, t.id) {
        OwnedKeyNotTaken(db.journal, t.id);
      }
      StepKeysUnique(db, c);
      StepAddsEvents(db, c);
      DispatchKeysStayOwned(db.journal, Step(db, c).db.journal, c);
    }
  }

  // One node per milestone

  ghost predicate BridgesKeyed(journal: seq<Event>) {
    forall i :: 0 <= i < |journal| && journal[i].payload.MilestoneBridged? ==>
      journal[i].kind == NodeKind && journal[i].key == BridgeKey(journal[i].payload.milestone)
  }

  lemma BridgesStayKeyed(before: seq<Event>, after: seq<Event>, c: Command)
    requires AddsEvents(before, after, c) && BridgesKeyed(before)
    ensures BridgesKeyed(after)
  {
    forall i | 0 <= i < |after| && after[i].payload.MilestoneBridged?
      ensures after[i].kind == NodeKind && after[i].key == BridgeKey(after[i].payload.milestone)
    {
      assert i < |before| ==> before[i] == after[i];
    }
  }

  ghost predicate MilestonesDistinct(nodes: seq<Bridged>) {
    forall i, j :: 0 <= i < j < |nodes| ==> nodes[i].milestone != nodes[j].milestone
  }

  lemma {:induction false} ReplayedMilestones(journal: seq<Event>)
    requires BridgesKeyed(journal) && UniqueUnder(journal, NodeKind)
    ensures MilestonesDistinct(ReplayJournal(journal).nodes)
    ensures forall b <- ReplayJournal(journal).nodes :: Consumed(journal, NodeKind, BridgeKey(b.milestone))
  {
    if journal == [] {
    } else {
      var rest, e := journal[..|journal| - 1], journal[|journal| - 1];
      assert forall i :: 0 <= i < |rest| ==> rest[i] == journal[i];
      ReplayedMilestones(rest);
      forall b <- ReplayJournal(journal).nodes ensures Consumed(journal, NodeKind, BridgeKey(b.milestone)) {
        if b in ReplayJournal(rest).nodes {
          ConsumedGrows(rest, journal, NodeKind, BridgeKey(b.milestone));
        } else {
          assert journal[|journal| - 1].key == BridgeKey(b.milestone);
        }
      }
      if e.payload.MilestoneBridged? {
        forall b <- ReplayJournal(rest).nodes ensures b.milestone != e.payload.milestone {
          var i :| 0 <= i < |rest| && rest[i].kind == NodeKind && rest[i].key == BridgeKey(b.milestone);
          assert journal[i].key != e.key;
        }
      }
    }
  }

  /** Main result: in every reachable state the node rows belong to pairwise
      different milestones, whatever keys the commands carried. */
  lemma OneNodePerMilestone(commands: seq<Command>)
    ensures var db := Run(EMPTY, commands);
            var bridged := ReplayJournal(db.journal).nodes;
            NodesMatch(db.nodes, bridged) && MilestonesDistinct(bridged)
  {
    JournalRebuildsTables(commands);
    KeysUnique(commands, NodeKind);
    ReachableBridgesKeyed(commands);
    ReplayedMilestones(Run(EMPTY, commands).journal);
  }

  lemma {:induction false} ReachableBridgesKeyed(commands: seq<Command>)
    ensures BridgesKeyed(Run(EMPTY, commands).journal)
  {
    if commands == [] {
    } else {
      var db, c := Run(EMPTY, commands[..|commands| - 1]), commands[|commands| - 1];
      ReachableBridgesKeyed(commands[..|commands| - 1]);
      StepAddsEvents(db, c);
      BridgesStayKeyed(db.journal, Step(db, c).db.journal, c);
    }
  }
}
