/** Replaying the journal rebuilds the loops, the cycles and the bridged nodes. */
module JournalFold {
  import opened Text
  import opened ControlPlane
  import opened CommandSpec
  import opened TableChanges

  /** What the journal says of one bridged node. */
  datatype Bridged = Bridged(id: nat, objective: nat, milestone: string)

  datatype Replay = Replay(loops: seq<LoopRow>, cycles: seq<CycleRow>, nodes: seq<Bridged>)

  function ApplyEvent(v: Replay, e: Event): Replay {
    match e.payload
    case LoopCreated(objective, track) => v.(loops := v.loops + [LoopRow(e.aggregate, objective, 0, track)])
    case CycleCreated(loopId, index, policy, _) =>
      v.(loops := SetLoopIndex(v.loops, loopId, index),
         cycles := v.cycles + [CycleRow(e.aggregate, loopId, index, Intake, policy)])
    case PhaseTransitioned(from, to) => v.(cycles := MoveCycle(v.cycles, e.aggregate, from, to))
    case MilestoneBridged(milestone, objective) => v.(nodes := v.nodes + [Bridged(e.aggregate, objective, milestone)])
    case _ => v
  }

  function ReplayJournal(journal: seq<Event>): Replay {
    if journal == [] then Replay([], [], [])
    else ApplyEvent(ReplayJournal(journal[..|journal| - 1]), journal[|journal| - 1])
  }

  /** A node row is the one its event speaks of. */
  predicate Describes(b: Bridged, n: NodeRow) {
    n.id == b.id && n.objective == b.objective && NodeStatement(b.milestone, "") <= n.statement
  }

  /** Table rows agree with the journal's account of the nodes. */
  ghost predicate NodesMatch(nodes: seq<NodeRow>, bridged: seq<Bridged>) {
    |nodes| == |bridged| && forall i | 0 <= i < |nodes| :: Describes(bridged[i], nodes[i])
  }

  /** The loops and the nodes are those of the journal. */
  ghost predicate LoopsAndNodesMatch(db: Db) {
    var v := ReplayJournal(db.journal);
    v.loops == db.loops && NodesMatch(db.nodes, v.nodes)
  }

  ghost predicate LogIsTable(db: Db) {
    LoopsAndNodesMatch(db) && ReplayJournal(db.journal).cycles == db.cycles
  }

  /** What a change does to a list of cycles. */
  function CyclesAfter(cycles: seq<CycleRow>, ch: Change): seq<CycleRow> {
    match ch
    case CycleOpened(cycle, _) => cycles + [cycle]
    case PhaseMoved(id, from, to) => MoveCycle(cycles, id, from, to)
    case _ => cycles
  }

  function LoopsAfter(loops: seq<LoopRow>, ch: Change): seq<LoopRow> {
    match ch
    case LoopAdded(loop) => loops + [loop]
    case CycleOpened(cycle, _) => SetLoopIndex(loops, cycle.loopId, cycle.index)
    case _ => loops
  }

  /** What a change adds to the journal's account. */
  function ReplayAfter(v: Replay, ch: Change): Replay {
    Replay(LoopsAfter(v.loops, ch), CyclesAfter(v.cycles, ch),
           if ch.NodeBridged? then v.nodes + [Bridged(ch.node.id, ch.node.objective, ch.milestone)] else v.nodes)
  }

  lemma {:induction false} SilentReplay(journal: seq<Event>, n: nat, next: nat)
    requires SilentFrom(journal, n, next)
    ensures ReplayJournal(journal) == ReplayJournal(journal[..n])
    decreases |journal|
  {
    if n == |journal| {
      assert journal[..n] == journal;
    } else {
      var rest := journal[..|journal| - 1];
      SilentReplay(rest, n, next);
      assert rest[..n] == journal[..n];
    }
  }

  lemma AddedReplay(before: seq<Event>, after: seq<Event>, next: nat, kind: AggregateKind, aggregate: nat,
                    key: string, payload: Payload)
    requires Adds(before, after, next, kind, aggregate, key, payload)
    ensures ReplayJournal(after) == ApplyEvent(ReplayJournal(before), after[|before|])
  {
    SilentReplay(after, |before| + 1, next);
    assert after[..|before| + 1][..|before|] == before;
  }

  lemma OneMoreNode(nodes: seq<NodeRow>, bridged: seq<Bridged>, row: NodeRow, milestone: string)
    requires NodesMatch(nodes, bridged) && NodeStatement(milestone, "") <= row.statement
    ensures NodesMatch(nodes + [row], bridged + [Bridged(row.id, row.objective, milestone)])
  {
  }

  lemma SameNodesMatch(nodes: seq<NodeRow>, bridged: seq<Bridged>, after: seq<NodeRow>)
    requires NodesMatch(nodes, bridged) && SameNodes(nodes, after)
    ensures NodesMatch(after, bridged)
  {
    forall i | 0 <= i < |after| ensures Describes(bridged[i], after[i]) {
      assert Describes(bridged[i], nodes[i]);
    }
  }

  /** A bridged row's statement starts with its milestone. */
  lemma ChangeBearsMilestone(db: Db, c: Command)
    requires ChangeOf(db, c).NodeBridged?
    ensures NodeStatement(ChangeOf(db, c).milestone, "") <= ChangeOf(db, c).node.statement
  {
    assert NodeStatement(c.milestone, c.statement) == NodeStatement(c.milestone, "") + c.statement;
  }

  /** What a change does to the tables. */
  lemma ChangeTables(db: Db, next: Db, ch: Change, key: string)
    requires Changed(db, next, ch, key)
    ensures next.cycles == CyclesAfter(db.cycles, ch) && next.loops == LoopsAfter(db.loops, ch)
  {
  }

  lemma EventReplays(db: Db, next: Db, ch: Change, key: string)
    requires Changed(db, next, ch, key) && (ch.PhaseMoved? || ch.NodeBridged?)
    ensures ReplayJournal(next.journal) == ReplayAfter(ReplayJournal(db.journal), ch)
  {
    match ch
    case PhaseMoved(id, from, to) =>
      AddedReplay(db.journal, next.journal, next.next, CycleKind, id, key, PhaseTransitioned(from, to));
    case NodeBridged(node, milestone) =>
      AddedReplay(db.journal, next.journal, next.next, NodeKind, node.id, key,
                  MilestoneBridged(milestone, node.objective));
  }

  /** The replay takes it alike. */
  lemma ChangeReplays(db: Db, next: Db, ch: Change, key: string)
    requires Changed(db, next, ch, key)
    ensures ReplayJournal(next.journal) == ReplayAfter(ReplayJournal(db.journal), ch)
  {
    match ch
    case Quiet =>
      SilentReplay(next.journal, |db.journal|, next.next);
      assert next.journal[..|db.journal|] == db.journal;
    case LoopAdded(loop) =>
      AddedReplay(db.journal, next.journal, next.next, LoopKind, loop.id, key, LoopCreated(loop.objective, loop.track));
    case CycleOpened(cycle, previous) =>
      AddedReplay(db.journal, next.journal, next.next, CycleKind, cycle.id, key,
                  CycleCreated(cycle.loopId, cycle.index, cycle.policy, previous));
    case _ => EventReplays(db, next, ch, key);
  }

  lemma ChangeKeepsLoopsAndNodes(db: Db, next: Db, ch: Change, key: string)
    requires LoopsAndNodesMatch(db) && Changed(db, next, ch, key)
    requires ch.NodeBridged? ==> NodeStatement(ch.milestone, "") <= ch.node.statement
    ensures LoopsAndNodesMatch(next)
  {
    ChangeReplays(db, next, ch, key);
    ChangeTables(db, next, ch, key);
    if ch.NodeBridged? {
      OneMoreNode(db.nodes, ReplayJournal(db.journal).nodes, ch.node, ch.milestone);
    } else {
      SameNodesMatch(db.nodes, ReplayJournal(db.journal).nodes, next.nodes);
    }
  }

  lemma StepKeepsLoopsAndNodes(db: Db, c: Command)
    requires LoopsAndNodesMatch(db) && IdsBelow(db)
    ensures LoopsAndNodesMatch(Step(db, c).db)
  {
    StepChanges(db, c);
    if ChangeOf(db, c).NodeBridged? {
      ChangeBearsMilestone(db, c);
    }
    ChangeKeepsLoopsAndNodes(db, Step(db, c).db, ChangeOf(db, c), KeyOf(c));
  }

  lemma StepKeepsLog(db: Db, c: Command)
    requires LogIsTable(db) && IdsBelow(db)
    ensures LogIsTable(Step(db, c).db)
  {
    StepKeepsLoopsAndNodes(db, c);
    StepChanges(db, c);
    ChangeReplays(db, Step(db, c).db, ChangeOf(db, c), KeyOf(c));
    ChangeTables(db, Step(db, c).db, ChangeOf(db, c), KeyOf(c));
  }

  /** Main result: in every reachable state the journal replays to the tables:
      all of `loops` with its cycle index, all of `cycles` with its phase, and
      the identity of every node. */
  lemma {:induction false} JournalRebuildsTables(commands: seq<Command>)
    ensures LogIsTable(Run(EMPTY, commands))
  {
    if commands == [] {
    } else {
      JournalRebuildsTables(commands[..|commands| - 1]);
      ReachableIds(commands[..|commands| - 1]);
      StepKeepsLog(Run(EMPTY, commands[..|commands| - 1]), commands[|commands| - 1]);
    }
  }
}
