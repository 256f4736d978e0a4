/** Which phase histories come about: all that start at intake and make no
    transition twice. */
module PhasePaths {
  import opened Text
  import opened ControlPlane
  import opened CommandSpec
  import opened TableChanges
  import opened StepEvents
  import opened PhaseRuns
  import opened PhaseHistory
  import opened FirstRun

  /** An objective, a loop, cycle 4, and its phase changes along the path. */
  function PathCommands(path: seq<CyclePhase>): seq<Command>
    requires path != []
  {
    if |path| == 1 then [OBJECTIVE, LOOP, CYCLE]
    else PathCommands(path[..|path| - 1]) + [AdvancePhase(4, path[|path| - 2], Last(path))]
  }

  lemma PhaseNameInjective(p: CyclePhase, q: CyclePhase)
    requires PhaseName(p) == PhaseName(q)
    ensures p == q
  {
    assert |PhaseName(p)| == |PhaseName(q)| && PhaseName(p)[0] == PhaseName(q)[0] && PhaseName(p)[1] == PhaseName(q)[1];
  }

  lemma NoHyphenEarly(p: CyclePhase)
    requires Rank(p) < 6
    ensures '-' !in PhaseName(p)
  {
  }

  lemma NoHyphenLate(p: CyclePhase)
    requires Rank(p) >= 6
    ensures '-' !in PhaseName(p)
  {
  }

  lemma NoHyphen(p: CyclePhase)
    ensures '-' !in PhaseName(p)
  {
    if Rank(p) < 6 {
      NoHyphenEarly(p);
    } else {
      NoHyphenLate(p);
    }
  }

  lemma NotLonger(a: string, b: string, x: string, y: string)
    requires '-' !in b && a + ("-to-" + x) == b + ("-to-" + y)
    ensures |b| <= |a|
  {
    var s, t := a + ("-to-" + x), b + ("-to-" + y);
    assert s[|a|] == '-';
    assert forall k | 0 <= k < |b| :: t[k] == b[k] && b[k] in b;
  }

  /** Up to the first hyphen, and after it, the texts are the same. */
  lemma HeadsEqual(a: string, b: string, x: string, y: string)
    requires '-' !in a && '-' !in b && a + ("-to-" + x) == b + ("-to-" + y)
    ensures a == b && x == y
  {
    NotLonger(a, b, x, y);
    NotLonger(b, a, y, x);
    var s, t := a + ("-to-" + x), b + ("-to-" + y);
    assert s[..|a|] == a && t[..|b|] == b;
    assert s[|a| + 4..] == x && t[|b| + 4..] == y;
  }

  lemma Regroup(p: string, d: string, h: string, f: string, m: string, t: string)
    ensures p + (d + h + f + m + t) == (p + d + h) + (f + (m + t))
  {
  }

  lemma AfterHead(head: string, tail: string)
    ensures |head + tail| >= |head| && (head + tail)[|head|..] == tail
  {
  }

  lemma EdgeKeyTail(id: nat, e: Rule)
    ensures var head := "phase-" + Decimal(id) + "-";
            EdgeKeys(id)(e) == head + (PhaseName(e.from) + ("-to-" + PhaseName(e.to)))
  {
    Regroup("phase-", Decimal(id), "-", PhaseName(e.from), "-to-", PhaseName(e.to));
  }

  lemma EdgeKeyInjective(id: nat, e: Rule, f: Rule)
    requires EdgeKeys(id)(e) == EdgeKeys(id)(f)
    ensures e == f
  {
    var head := "phase-" + Decimal(id) + "-";
    EdgeKeyTail(id, e);
    EdgeKeyTail(id, f);
    AfterHead(head, PhaseName(e.from) + ("-to-" + PhaseName(e.to)));
    AfterHead(head, PhaseName(f.from) + ("-to-" + PhaseName(f.to)));
    NoHyphen(e.from);
    NoHyphen(f.from);
    HeadsEqual(PhaseName(e.from), PhaseName(f.from), PhaseName(e.to), PhaseName(f.to));
    PhaseNameInjective(e.from, f.from);
    PhaseNameInjective(e.to, f.to);
  }

  /** The keys under which cycle events stand: the creation's and one per transition. */
  ghost predicate OnlyPathKeys(journal: seq<Event>, path: seq<CyclePhase>, keys: Rule -> string) {
    forall i | 0 <= i < |journal| && journal[i].kind == CycleKind :: PathKey(path, journal[i].key, keys)
  }

  ghost predicate PathKey(path: seq<CyclePhase>, key: string, keys: Rule -> string) {
    key == "c" || exists i | 0 < i < |path| :: key == keys(Edge(path, i))
  }

  ghost predicate OnPath(db: Db, path: seq<CyclePhase>)
    requires path != []
  {
    && db.cycles == [CycleRow(4, 2, 1, Last(path), "policy")]
    && HistoryOf(db.journal, 4) == path && OnlyPathKeys(db.journal, path, EdgeKeys(4))
  }

  lemma FirstPathKeys(before: seq<Event>, after: seq<Event>)
    requires AddsEvents(before, after, CYCLE) && forall i | 0 <= i < |before| :: before[i].kind != CycleKind
    ensures OnlyPathKeys(after, [Intake], EdgeKeys(4))
  {
    assert forall i | 0 <= i < |before| :: after[i] == before[i];
  }

  lemma FirstRow(db: Db, next: Db)
    requires IdsBelow(db) && db.cycles == [] && db.next == 4
    requires Changed(db, next, CycleOpened(CycleRow(4, 2, 1, Intake, "policy"), None), "c")
    ensures next.cycles == [CycleRow(4, 2, 1, Intake, "policy")] && HistoryOf(next.journal, 4) == [Intake]
  {
    NoHistoryYet(db.journal, 4);
    ChangeHistory(db, next, CycleOpened(CycleRow(4, 2, 1, Intake, "policy"), None), "c", 4);
  }

  lemma FirstOnPath(db: Db, next: Db)
    requires IdsBelow(db) && db.cycles == [] && db.next == 4 && AddsEvents(db.journal, next.journal, CYCLE)
    requires Changed(db, next, CycleOpened(CycleRow(4, 2, 1, Intake, "policy"), None), "c")
    requires forall i | 0 <= i < |db.journal| :: db.journal[i].kind != CycleKind
    ensures OnPath(next, [Intake])
  {
    FirstRow(db, next);
    FirstPathKeys(db.journal, next.journal);
  }

  lemma FirstStep(db: Db)
    requires IdsBelow(db) && db.loops == [LoopRow(2, 0, 0, "main")] && db.cycles == [] && db.next == 4
    requires |db.journal| == 2 && db.journal[0].kind == ObjectiveKind && db.journal[1].kind == LoopKind
    ensures OnPath(Step(db, CYCLE).db, [Intake])
  {
    OpensCycle(db, 1);
    StepChanges(db, CYCLE);
    StepAddsEvents(db, CYCLE);
    FirstOnPath(db, Step(db, CYCLE).db);
  }

  lemma PathStarts()
    ensures OnPath(Run(EMPTY, [OBJECTIVE, LOOP, CYCLE]), [Intake])
  {
    SetUp();
    ReachableIds([OBJECTIVE, LOOP]);
    RunMore([OBJECTIVE, LOOP], CYCLE);
    assert [OBJECTIVE, LOOP] + [CYCLE] == [OBJECTIVE, LOOP, CYCLE];
    FirstStep(Run(EMPTY, [OBJECTIVE, LOOP]));
  }

  /** The key of a transition that is not on the path is still free. */
  lemma EdgeFree(journal: seq<Event>, path: seq<CyclePhase>, e: Rule)
    requires OnlyPathKeys(journal, path, EdgeKeys(4)) && forall i | 0 < i < |path| :: Edge(path, i) != e
    ensures !Consumed(journal, CycleKind, EdgeKeys(4)(e))
  {
    if Consumed(journal, CycleKind, EdgeKeys(4)(e)) {
      var k :| 0 <= k < |journal| && journal[k].kind == CycleKind && journal[k].key == EdgeKeys(4)(e);
      assert PathKey(path, journal[k].key, EdgeKeys(4));
      assert |EdgeKeys(4)(e)| > 1;
      var i :| 0 < i < |path| && journal[k].key == EdgeKeys(4)(Edge(path, i));
      EdgeKeyInjective(4, e, Edge(path, i));
    }
  }

  lemma PathKeyStays(path: seq<CyclePhase>, key: string, keys: Rule -> string)
    requires |path| > 1 && PathKey(path[..|path| - 1], key, keys)
    ensures PathKey(path, key, keys)
  {
    var rest := path[..|path| - 1];
    if key != "c" {
      var i :| 0 < i < |rest| && key == keys(Edge(rest, i));
      assert Edge(rest, i) == Edge(path, i);
    }
  }

  lemma PathKeysGrow(before: seq<Event>, after: seq<Event>, path: seq<CyclePhase>, keys: Rule -> string)
    requires |path| > 1 && before <= after && OnlyPathKeys(before, path[..|path| - 1], keys)
    requires forall k | |before| <= k < |after| && after[k].kind == CycleKind ::
               after[k].key == keys(Edge(path, |path| - 1))
    ensures OnlyPathKeys(after, path, keys)
  {
    forall k | 0 <= k < |after| && after[k].kind == CycleKind ensures PathKey(path, after[k].key, keys) {
      if k < |before| {
        assert after[k] == before[k];
        PathKeyStays(path, before[k].key, keys);
      }
    }
  }

  lemma NewCycleKeys(before: seq<Event>, after: seq<Event>, c: Command)
    requires c.AdvancePhase? && AddsEvents(before, after, c)
    ensures forall k | |before| <= k < |after| && after[k].kind == CycleKind :: after[k].key == KeyOf(c)
  {
    forall k | |before| <= k < |after| && after[k].kind == CycleKind ensures after[k].key == KeyOf(c) {
      assert IsOwn(after[k], c);
    }
  }

  lemma MoveChange(db: Db, c: Command, row: CycleRow)
    requires c.AdvancePhase? && db.cycles == [row] && row.id == c.cycle && row.phase == c.from
    requires !Consumed(db.journal, CycleKind, KeyOf(c))
    ensures ChangeOf(db, c) == PhaseMoved(c.cycle, c.from, c.to)
    ensures MoveCycle(db.cycles, c.cycle, c.from, c.to) == [row.(phase := c.to)]
  {
    assert db.cycles[0] in db.cycles;
  }

  lemma MoveOnPath(db: Db, next: Db, path: seq<CyclePhase>, from: CyclePhase, key: string)
    requires |path| > 1 && db.cycles == [CycleRow(4, 2, 1, from, "policy")]
    requires HistoryOf(db.journal, 4) == path[..|path| - 1]
    requires Changed(db, next, PhaseMoved(4, from, Last(path)), key)
    requires MoveCycle(db.cycles, 4, from, Last(path)) == [CycleRow(4, 2, 1, Last(path), "policy")]
    ensures next.cycles == [CycleRow(4, 2, 1, Last(path), "policy")] && HistoryOf(next.journal, 4) == path
  {
    ChangeHistory(db, next, PhaseMoved(4, from, Last(path)), key, 4);
    assert path == path[..|path| - 1] + [Last(path)];
  }

  lemma PathStep(db: Db, path: seq<CyclePhase>, c: Command)
    requires |path| > 1 && c == AdvancePhase(4, path[|path| - 2], Last(path))
    requires IdsBelow(db) && OnPath(db, path[..|path| - 1])
    requires !Consumed(db.journal, CycleKind, KeyOf(c))
    ensures OnPath(Step(db, c).db, path)
  {
    MoveChange(db, c, CycleRow(4, 2, 1, c.from, "policy"));
    StepChanges(db, c);
    MoveOnPath(db, Step(db, c).db, path, c.from, KeyOf(c));
    StepAddsEvents(db, c);
    NewCycleKeys(db.journal, Step(db, c).db.journal, c);
    PathKeysGrow(db.journal, Step(db, c).db.journal, path, EdgeKeys(4));
  }

  lemma NextOnPath(db: Db, path: seq<CyclePhase>, c: Command)
    requires |path| > 1 && c == AdvancePhase(4, path[|path| - 2], Last(path)) && EdgesDistinct(path)
    requires IdsBelow(db) && OnPath(db, path[..|path| - 1])
    ensures OnPath(Step(db, c).db, path)
  {
    var rest := path[..|path| - 1];
    assert forall i | 0 < i < |rest| :: Edge(rest, i) == Edge(path, i);
    EdgeFree(db.journal, rest, Edge(path, |path| - 1));
    PathStep(db, path, c);
  }

  lemma PrefixDistinct(path: seq<CyclePhase>)
    requires |path| > 1 && EdgesDistinct(path)
    ensures EdgesDistinct(path[..|path| - 1])
  {
    var rest := path[..|path| - 1];
    assert forall i | 0 < i < |rest| :: Edge(rest, i) == Edge(path, i);
  }

  /** The converse of the law of histories: every path from intake that makes no
      transition twice is the history of a cycle in some run. */
  lemma {:induction false} EveryPathHappens(path: seq<CyclePhase>)
    requires path != [] && path[0] == Intake && EdgesDistinct(path)
    ensures OnPath(Run(EMPTY, PathCommands(path)), path)
  {
    if |path| == 1 {
      assert path == [Intake];
      PathStarts();
    } else {
      var rest, c := path[..|path| - 1], AdvancePhase(4, path[|path| - 2], Last(path));
      PrefixDistinct(path);
      EveryPathHappens(rest);
      ReachableIds(PathCommands(rest));
      RunMore(PathCommands(rest), c);
      NextOnPath(Run(EMPTY, PathCommands(rest)), path, c);
    }
  }

  /** A legal path asks only for transitions of the table. */
  lemma {:induction false} PathObeys(path: seq<CyclePhase>)
    requires LegalRun(path)
    ensures forall c <- PathCommands(path) :: Obeys(c)
  {
    if |path| == 1 {
    } else {
      LegalPrefix(path, |path| - 1);
      PathObeys(path[..|path| - 1]);
      assert LegalStep(path, |path| - 1);
    }
  }

  const SENT_BACK: seq<CyclePhase> :=
    [Intake, ConversationExtraction, PlanElaboration, PlanValidation, Review, PlanElaboration]

  lemma SentBackIsLegal()
    ensures LegalRun(SENT_BACK)
  {
    forall i | 0 < i < |SENT_BACK| ensures LegalStep(SENT_BACK, i) {
      assert Shape(SENT_BACK[i - 1], SENT_BACK[i]);
      ShapeHasRule(SENT_BACK[i - 1], SENT_BACK[i]);
    }
  }

  /** A run of commands that keep to the table, to a cycle sent back from review:
      from there no command by the table leads on. */
  lemma SentBackHappens()
    ensures OnPath(Run(EMPTY, PathCommands(SENT_BACK)), SENT_BACK) && WayBack(SENT_BACK[4], SENT_BACK[5])
    ensures forall c <- PathCommands(SENT_BACK) :: Obeys(c)
  {
    EveryPathHappens(SENT_BACK);
    SentBackIsLegal();
    PathObeys(SENT_BACK);
  }
}
