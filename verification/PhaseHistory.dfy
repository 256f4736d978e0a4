/** The phases a cycle has been through, as the journal tells them. */
module PhaseHistory {
  import opened Text
  import opened ControlPlane
  import opened CommandSpec
  import opened ExactlyOnce
  import opened TableChanges
  import opened PhaseRuns

  /** Intake, and then the target of each of the cycle's transitions in order. */
  function HistoryOf(journal: seq<Event>, id: nat): (h: seq<CyclePhase>)
    ensures h != [] && h[0] == Intake
  {
    if journal == [] then [Intake]
    else
      var rest, last := HistoryOf(journal[..|journal| - 1], id), journal[|journal| - 1];
      if last.payload.PhaseTransitioned? && last.aggregate == id then rest + [last.payload.to] else rest
  }

  function Last(h: seq<CyclePhase>): CyclePhase
    requires h != []
  {
    h[|h| - 1]
  }

  /** The `i`th transition. */
  function Edge(h: seq<CyclePhase>, i: nat): Rule
    requires 0 < i < |h|
  {
    Rule(h[i - 1], h[i])
  }

  /** No transition happens twice. */
  ghost predicate EdgesDistinct(h: seq<CyclePhase>) {
    forall i, j | 0 < i < j < |h| :: Edge(h, i) != Edge(h, j)
  }

  /** The key of each transition of a cycle. */
  function EdgeKeys(id: nat): Rule -> string {
    (e: Rule) => PhaseKey(id, e.from, e.to)
  }

  /** Every transition has consumed its key. */
  ghost predicate EdgesConsumed(journal: seq<Event>, h: seq<CyclePhase>, keys: Rule -> string) {
    forall i | 0 < i < |h| :: Consumed(journal, CycleKind, keys(Edge(h, i)))
  }

  ghost predicate AtLast(cycles: seq<CycleRow>, id: nat, h: seq<CyclePhase>)
    requires h != []
  {
    forall k | 0 <= k < |cycles| && cycles[k].id == id :: cycles[k].phase == Last(h)
  }

  ghost predicate HistoryFits(db: Db, id: nat) {
    var h := HistoryOf(db.journal, id);
    EdgesConsumed(db.journal, h, EdgeKeys(id)) && EdgesDistinct(h) && AtLast(db.cycles, id, h)
  }

  lemma {:induction false} SilentHistory(journal: seq<Event>, n: nat, next: nat, id: nat)
    requires SilentFrom(journal, n, next)
    ensures HistoryOf(journal, id) == HistoryOf(journal[..n], id)
    decreases |journal|
  {
    if n == |journal| {
      assert journal[..n] == journal;
    } else {
      var rest := journal[..|journal| - 1];
      SilentHistory(rest, n, next, id);
      assert rest[..n] == journal[..n];
    }
  }

  lemma AddedHistory(before: seq<Event>, after: seq<Event>, next: nat, kind: AggregateKind, aggregate: nat,
                     key: string, payload: Payload, id: nat)
    requires Adds(before, after, next, kind, aggregate, key, payload)
    ensures payload.PhaseTransitioned? && aggregate == id ==>
            HistoryOf(after, id) == HistoryOf(before, id) + [payload.to]
    ensures !(payload.PhaseTransitioned? && aggregate == id) ==> HistoryOf(after, id) == HistoryOf(before, id)
  {
    SilentHistory(after, |before| + 1, next, id);
    assert after[..|before| + 1][..|before|] == before;
  }

  /** Only a phase move of this very cycle makes its history longer. */
  lemma ChangeHistory(db: Db, next: Db, ch: Change, key: string, id: nat)
    requires Changed(db, next, ch, key)
    ensures ch.PhaseMoved? && ch.id == id ==> HistoryOf(next.journal, id) == HistoryOf(db.journal, id) + [ch.to]
    ensures !(ch.PhaseMoved? && ch.id == id) ==> HistoryOf(next.journal, id) == HistoryOf(db.journal, id)
  {
    match ch
    case Quiet =>
      SilentHistory(next.journal, |db.journal|, next.next, id);
      assert next.journal[..|db.journal|] == db.journal;
    case LoopAdded(loop) =>
      AddedHistory(db.journal, next.journal, next.next, LoopKind, loop.id, key,
                   LoopCreated(loop.objective, loop.track), id);
    case CycleOpened(cycle, previous) =>
      AddedHistory(db.journal, next.journal, next.next, CycleKind, cycle.id, key,
                   CycleCreated(cycle.loopId, cycle.index, cycle.policy, previous), id);
    case PhaseMoved(cycle, from, to) =>
      AddedHistory(db.journal, next.journal, next.next, CycleKind, cycle, key, PhaseTransitioned(from, to), id);
    case NodeBridged(node, milestone) =>
      AddedHistory(db.journal, next.journal, next.next, NodeKind, node.id, key,
                   MilestoneBridged(milestone, node.objective), id);
  }

  /** A cycle that does not exist yet has no history. */
  lemma {:induction false} NoHistoryYet(journal: seq<Event>, id: nat)
    requires JournalBelow(journal, id)
    ensures HistoryOf(journal, id) == [Intake]
  {
    if journal == [] {
    } else {
      NoHistoryYet(journal[..|journal| - 1], id);
    }
  }

  lemma SameHistory(before: seq<Event>, after: seq<Event>, h: seq<CyclePhase>, keys: Rule -> string)
    requires before <= after && EdgesConsumed(before, h, keys)
    ensures EdgesConsumed(after, h, keys)
  {
    forall i | 0 < i < |h| ensures Consumed(after, CycleKind, keys(Edge(h, i))) {
      ConsumedGrows(before, after, CycleKind, keys(Edge(h, i)));
    }
  }

  lemma LongerConsumed(journal: seq<Event>, h: seq<CyclePhase>, to: CyclePhase, keys: Rule -> string)
    requires h != [] && EdgesConsumed(journal, h, keys) && Consumed(journal, CycleKind, keys(Rule(Last(h), to)))
    ensures EdgesConsumed(journal, h + [to], keys)
  {
    forall i | 0 < i < |h + [to]| ensures Consumed(journal, CycleKind, keys(Edge(h + [to], i))) {
      assert i < |h| ==> Edge(h + [to], i) == Edge(h, i);
    }
  }

  lemma LongerDistinct(h: seq<CyclePhase>, to: CyclePhase)
    requires h != [] && EdgesDistinct(h) && forall i | 0 < i < |h| :: Edge(h, i) != Rule(Last(h), to)
    ensures EdgesDistinct(h + [to])
  {
    var longer := h + [to];
    assert forall i | 0 < i < |h| :: Edge(longer, i) == Edge(h, i);
    assert Edge(longer, |h|) == Rule(Last(h), to);
  }

  lemma LongerHistory(before: seq<Event>, after: seq<Event>, h: seq<CyclePhase>, to: CyclePhase,
                      keys: Rule -> string)
    requires h != [] && before <= after && EdgesConsumed(before, h, keys) && EdgesDistinct(h)
    requires !Consumed(before, CycleKind, keys(Rule(Last(h), to)))
    requires Consumed(after, CycleKind, keys(Rule(Last(h), to)))
    ensures EdgesConsumed(after, h + [to], keys) && EdgesDistinct(h + [to])
  {
    SameHistory(before, after, h, keys);
    LongerConsumed(after, h, to, keys);
    LongerDistinct(h, to);
  }

  lemma RowsStayAtLast(db: Db, next: Db, ch: Change, key: string, id: nat)
    requires Changed(db, next, ch, key) && JournalBelow(db.journal, db.next)
    requires AtLast(db.cycles, id, HistoryOf(db.journal, id))
    ensures AtLast(next.cycles, id, HistoryOf(next.journal, id))
  {
    ChangeHistory(db, next, ch, key, id);
    if ch.CycleOpened? && ch.cycle.id == id {
      NoHistoryYet(db.journal, id);
    }
  }

  lemma MoveStartsAtLast(cycles: seq<CycleRow>, id: nat, from: CyclePhase, h: seq<CyclePhase>)
    requires AtPhase(cycles, id, from) && h != [] && AtLast(cycles, id, h)
    ensures from == Last(h)
  {
  }

  /** What a move makes of a history. */
  lemma MoveFits(db: Db, next: Db, ch: Change, key: string)
    requires Changed(db, next, ch, key) && ch.PhaseMoved? && HistoryFits(db, ch.id)
    requires key == EdgeKeys(ch.id)(Rule(ch.from, ch.to)) && !Consumed(db.journal, CycleKind, key)
    ensures ch.from == Last(HistoryOf(db.journal, ch.id))
    ensures var h := HistoryOf(db.journal, ch.id) + [ch.to];
            EdgesConsumed(next.journal, h, EdgeKeys(ch.id)) && EdgesDistinct(h)
  {
    var h := HistoryOf(db.journal, ch.id);
    MoveStartsAtLast(db.cycles, ch.id, ch.from, h);
    assert Consumed(next.journal, CycleKind, key) by {
      assert next.journal[|db.journal|].key == key;
    }
    LongerHistory(db.journal, next.journal, h, ch.to, EdgeKeys(ch.id));
  }

  lemma ChangeFits(db: Db, next: Db, ch: Change, key: string, id: nat)
    requires Changed(db, next, ch, key) && JournalBelow(db.journal, db.next) && HistoryFits(db, id)
    requires ch.PhaseMoved? ==> key == EdgeKeys(ch.id)(Rule(ch.from, ch.to)) && !Consumed(db.journal, CycleKind, key)
    ensures HistoryFits(next, id)
    ensures ch.PhaseMoved? && ch.id == id ==> ch.from == Last(HistoryOf(db.journal, id))
  {
    ChangeHistory(db, next, ch, key, id);
    RowsStayAtLast(db, next, ch, key, id);
    if ch.PhaseMoved? && ch.id == id {
      MoveFits(db, next, ch, key);
    } else {
      SameHistory(db.journal, next.journal, HistoryOf(db.journal, id), EdgeKeys(id));
    }
  }

  /** A step either leaves the history alone or is the next transition in it. */
  ghost predicate Extends(h: seq<CyclePhase>, next: seq<CyclePhase>, c: Command, id: nat)
    requires h != []
  {
    next == h || (c.AdvancePhase? && c.cycle == id && c.from == Last(h) && next == h + [c.to])
  }

  lemma MoveGuards(db: Db, c: Command)
    requires ChangeOf(db, c).PhaseMoved?
    ensures c.AdvancePhase? && ChangeOf(db, c) == PhaseMoved(c.cycle, c.from, c.to)
    ensures KeyOf(c) == EdgeKeys(c.cycle)(Rule(c.from, c.to)) && !Consumed(db.journal, CycleKind, KeyOf(c))
  {
  }

  lemma StepHistory(db: Db, c: Command, id: nat)
    requires IdsBelow(db) && HistoryFits(db, id)
    ensures HistoryFits(Step(db, c).db, id)
    ensures Extends(HistoryOf(db.journal, id), HistoryOf(Step(db, c).db.journal, id), c, id)
  {
    StepChanges(db, c);
    if ChangeOf(db, c).PhaseMoved? {
      MoveGuards(db, c);
    }
    ChangeFits(db, Step(db, c).db, ChangeOf(db, c), KeyOf(c), id);
    ChangeHistory(db, Step(db, c).db, ChangeOf(db, c), KeyOf(c), id);
  }

  /** Main result, for any commands: a cycle's transitions in the journal chain
      from intake to its present phase, and none of them occurs twice. */
  lemma {:induction false} HistoryLaw(commands: seq<Command>, id: nat)
    ensures HistoryFits(Run(EMPTY, commands), id)
  {
    if commands == [] {
      assert HistoryOf([], id) == [Intake];
    } else {
      var db := Run(EMPTY, commands[..|commands| - 1]);
      HistoryLaw(commands[..|commands| - 1], id);
      ReachableIds(commands[..|commands| - 1]);
      StepHistory(db, commands[|commands| - 1], id);
      assert Run(EMPTY, commands) == Step(db, commands[|commands| - 1]).db;
    }
  }

  // Runs that keep to the table

  /** Phase changes are asked for by the table only. */
  predicate Obeys(c: Command) {
    c.AdvancePhase? ==> IsValidPhaseTransition(c.from, c.to)
  }

  lemma LongerRun(h: seq<CyclePhase>, to: CyclePhase)
    requires LegalRun(h) && IsValidPhaseTransition(Last(h), to)
    ensures LegalRun(h + [to])
  {
    var longer := h + [to];
    forall i | 0 < i < |longer| ensures LegalStep(longer, i) {
      if i < |h| {
        assert LegalStep(h, i);
        assert longer[i - 1] == h[i - 1] && longer[i] == h[i];
      } else {
        assert longer[i - 1] == Last(h) && longer[i] == to;
      }
    }
  }

  lemma {:induction false} HistoryIsLegal(commands: seq<Command>, id: nat)
    requires forall c <- commands :: Obeys(c)
    ensures LegalRun(HistoryOf(Run(EMPTY, commands).journal, id))
  {
    if commands == [] {
    } else {
      var rest, c := commands[..|commands| - 1], commands[|commands| - 1];
      assert c in commands && forall d <- rest :: d in commands;
      HistoryIsLegal(rest, id);
      HistoryLaw(rest, id);
      ReachableIds(rest);
      StepHistory(Run(EMPTY, rest), c, id);
      var h := HistoryOf(Run(EMPTY, rest).journal, id);
      if HistoryOf(Run(EMPTY, commands).journal, id) != h {
        LongerRun(h, c.to);
      }
    }
  }

  /** A legal run that gets past place `r` makes the step from `r` to `r + 1`. */
  lemma {:induction false} CrossesUp(run: seq<CyclePhase>, i: nat, j: nat, r: nat) returns (m: nat)
    requires LegalRun(run) && i < j < |run| && Rank(run[i]) <= r < Rank(run[j])
    ensures i < m <= j && Rank(run[m - 1]) == r && Rank(run[m]) == r + 1
    decreases j
  {
    StepShape(run, j);
    if Rank(run[j - 1]) > r {
      m := CrossesUp(run, i, j - 1, r);
    } else {
      m := j;
    }
  }

  predicate WayBack(from: CyclePhase, to: CyclePhase) {
    SendBack(from, to) || CertificationFailure(from, to)
  }

  /** After a way back the next step has been made before. */
  lemma WayForwardUsed(run: seq<CyclePhase>, i: nat) returns (m: nat)
    requires LegalRun(run) && 0 < i < |run| - 1 && WayBack(run[i - 1], run[i])
    ensures 0 < m < i && Edge(run, m) == Edge(run, i + 1)
  {
    StepShape(run, i + 1);
    m := CrossesUp(run, 0, i - 1, Rank(run[i]));
    SameRank(run[m - 1], run[i]);
    SameRank(run[m], run[i + 1]);
  }

  /** When no transition occurs twice, a way back is the end of the run. */
  lemma WayBackIsLast(run: seq<CyclePhase>, i: nat)
    requires LegalRun(run) && EdgesDistinct(run) && 0 < i < |run| && WayBack(run[i - 1], run[i])
    ensures i == |run| - 1
  {
    if i + 1 < |run| {
      var _ := WayForwardUsed(run, i);
    }
  }

  lemma {:induction false} NoWayBackCounts(run: seq<CyclePhase>)
    requires forall i | 0 < i < |run| :: !WayBack(run[i - 1], run[i])
    ensures CountSteps(run, SendBack) == 0 && CountSteps(run, CertificationFailure) == 0
  {
    if |run| < 2 {
    } else {
      var rest := run[..|run| - 1];
      assert forall i | 0 <= i < |rest| :: rest[i] == run[i];
      NoWayBackCounts(rest);
    }
  }

  /** Main result: over every run that keeps to the table, a cycle that is ready
      for the next one took exactly twelve steps and no way back, visited every
      phase, and entered dispatch once, after validation and review. */
  lemma ReadyAfterTwelve(commands: seq<Command>, k: nat)
    requires forall c <- commands :: Obeys(c)
    requires var db := Run(EMPTY, commands); k < |db.cycles| && db.cycles[k].phase == NextCycleReady
    ensures var db := Run(EMPTY, commands);
            var h := HistoryOf(db.journal, db.cycles[k].id);
            && |h| == 13 && (forall i | 0 <= i < 13 :: Rank(h[i]) == i)
            && CountSteps(h, SendBack) == 0 && CountSteps(h, CertificationFailure) == 0
  {
    var db := Run(EMPTY, commands);
    var h := HistoryOf(db.journal, db.cycles[k].id);
    HistoryLaw(commands, db.cycles[k].id);
    HistoryIsLegal(commands, db.cycles[k].id);
    StraightToReady(h);
  }

  lemma StraightToReady(h: seq<CyclePhase>)
    requires LegalRun(h) && EdgesDistinct(h) && Last(h) == NextCycleReady
    ensures |h| == 13 && (forall i | 0 <= i < 13 :: Rank(h[i]) == i)
    ensures CountSteps(h, SendBack) == 0 && CountSteps(h, CertificationFailure) == 0
  {
    forall i | 0 < i < |h| ensures !WayBack(h[i - 1], h[i]) {
      if WayBack(h[i - 1], h[i]) {
        WayBackIsLast(h, i);
      }
    }
    NoWayBackCounts(h);
    CompleteRun(h);
    StraightUp(h, 12);
  }

  lemma {:induction false} StraightUp(h: seq<CyclePhase>, n: nat)
    requires LegalRun(h) && n < |h| && forall i | 0 < i < |h| :: !WayBack(h[i - 1], h[i])
    ensures forall i | 0 <= i <= n :: Rank(h[i]) == i
  {
    if n == 0 {
    } else {
      StraightUp(h, n - 1);
      StepShape(h, n);
    }
  }

  lemma {:induction false} HistoryGrows(db: Db, later: seq<Command>, id: nat)
    requires IdsBelow(db) && HistoryFits(db, id)
    requires forall n | 0 <= n <= |later| :: IdsBelow(Run(db, later[..n]))
    ensures HistoryFits(Run(db, later), id)
    ensures HistoryOf(db.journal, id) <= HistoryOf(Run(db, later).journal, id)
  {
    if later == [] {
    } else {
      var rest := later[..|later| - 1];
      forall n | 0 <= n <= |rest| ensures IdsBelow(Run(db, rest[..n])) {
        assert rest[..n] == later[..n];
      }
      HistoryGrows(db, rest, id);
      assert IdsBelow(Run(db, later[..|rest|]));
      StepHistory(Run(db, rest), later[|later| - 1], id);
    }
  }

  /** Main result: once sent back from review or failed in certification, a cycle
      keeps its phase and its history for ever, as long as commands keep to the
      table: the key of its next step forward is used up. */
  lemma SentBackIsStuck(first: seq<Command>, later: seq<Command>, id: nat)
    requires forall c <- first + later :: Obeys(c)
    requires var h := HistoryOf(Run(EMPTY, first).journal, id); |h| > 1 && WayBack(h[|h| - 2], h[|h| - 1])
    ensures HistoryOf(Run(EMPTY, first + later).journal, id) == HistoryOf(Run(EMPTY, first).journal, id)
  {
    var h := HistoryOf(Run(EMPTY, first).journal, id);
    var longer := HistoryOf(Run(EMPTY, first + later).journal, id);
    RunSplit(EMPTY, first, later);
    HistoryLaw(first, id);
    ReachableIds(first);
    forall n | 0 <= n <= |later| ensures IdsBelow(Run(Run(EMPTY, first), later[..n])) {
      RunSplit(EMPTY, first, later[..n]);
      ReachableIds(first + later[..n]);
    }
    HistoryGrows(Run(EMPTY, first), later, id);
    HistoryLaw(first + later, id);
    HistoryIsLegal(first + later, id);
    assert longer[|h| - 2] == h[|h| - 2] && longer[|h| - 1] == h[|h| - 1];
    WayBackIsLast(longer, |h| - 1);
  }
}
