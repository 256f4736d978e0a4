/** The buffered bus refines the direct one. */
module BusRefinement {
  import opened EventBus

  function RunBuffered(s: BusState, calls: seq<Call>): BusState {
    if calls == [] then s else StepBuffered(RunBuffered(s, calls[..|calls| - 1]), calls[|calls| - 1])
  }

  function RunDirect(journal: seq<Event>, calls: seq<Call>): seq<Event> {
    if calls == [] then journal else StepDirect(RunDirect(journal, calls[..|calls| - 1]), calls[|calls| - 1])
  }

  /** What the journal will be once the buffer has gone in. */
  function Settled(s: BusState): seq<Event> {
    InsertAll(s.journal, s.buffer)
  }

  lemma {:induction false} InsertAllSplit(journal: seq<Event>, a: seq<Event>, b: seq<Event>)
    ensures InsertAll(journal, a + b) == InsertAll(InsertAll(journal, a), b)
  {
    if b == [] {
      assert a + b == a;
    } else {
      assert (a + b)[..|a + b| - 1] == a + b[..|b| - 1];
      InsertAllSplit(journal, a, b[..|b| - 1]);
    }
  }

  lemma PushSettles(s: BusState, e: Event)
    ensures InsertAll(s.journal, s.buffer + [e]) == Insert(Settled(s), e)
  {
    assert (s.buffer + [e])[..|s.buffer|] == s.buffer;
  }

  // Runs with database failures: what is lost is exactly what was in a batch
  // the database refused.

  /** The events a run publishes and does not lose, in order: those in `kept`
      have reached the journal, those in `waiting` are still in the buffer. */
  datatype Fate = Fate(kept: seq<Event>, waiting: seq<Event>, lost: seq<Event>)

  function Track(f: Fate, c: Call): Fate {
    match c
    case Publish(e, up) =>
      var waiting := f.waiting + [e];
      if |waiting| < MAX_BATCH then f.(waiting := waiting) else Settle(f.(waiting := waiting), up)
    case PublishBatch(events, up) => if up then f.(kept := f.kept + events) else f.(lost := f.lost + events)
    case Flush(up) => Settle(f, up)
  }

  function Settle(f: Fate, up: bool): Fate {
    if up then Fate(f.kept + f.waiting, [], f.lost) else Fate(f.kept, [], f.lost + f.waiting)
  }

  function FateOf(calls: seq<Call>): Fate {
    if calls == [] then Fate([], [], []) else Track(FateOf(calls[..|calls| - 1]), calls[|calls| - 1])
  }

  function Published(calls: seq<Call>): seq<Event> {
    if calls == [] then []
    else
      var rest := Published(calls[..|calls| - 1]);
      match calls[|calls| - 1]
      case Publish(e, _) => rest + [e]
      case PublishBatch(events, _) => rest + events
      case Flush(_) => rest
  }

  /** The journal is the first-wins insertion of the kept events, and the buffer
      is what waits. */
  lemma {:induction false} FateIsState(calls: seq<Call>)
    ensures var s, f := RunBuffered(BusState([], []), calls), FateOf(calls);
            s.journal == InsertAll([], f.kept) && s.buffer == f.waiting && |s.buffer| < MAX_BATCH
  {
    if calls == [] {
    } else {
      var rest := calls[..|calls| - 1];
      FateIsState(rest);
      var f := FateOf(rest);
      match calls[|calls| - 1]
      case Publish(e, _) => InsertAllSplit([], f.kept, f.waiting + [e]);
      case PublishBatch(events, _) => InsertAllSplit([], f.kept, events);
      case Flush(_) => InsertAllSplit([], f.kept, f.waiting);
    }
  }

  function AllOf(f: Fate): multiset<Event> {
    multiset(f.kept) + multiset(f.waiting) + multiset(f.lost)
  }

  lemma SettleKeepsAll(f: Fate, up: bool)
    ensures AllOf(Settle(f, up)) == AllOf(f)
  {
  }

  lemma {:induction false} FateOfAll(calls: seq<Call>)
    ensures AllOf(FateOf(calls)) == multiset(Published(calls))
  {
    if calls == [] {
    } else {
      var f := FateOf(calls[..|calls| - 1]);
      FateOfAll(calls[..|calls| - 1]);
      match calls[|calls| - 1]
      case Publish(e, up) =>
        var pushed := f.(waiting := f.waiting + [e]);
        assert AllOf(pushed) == AllOf(f) + multiset{e};
        SettleKeepsAll(pushed, up);
      case PublishBatch(events, _) =>
      case Flush(up) => SettleKeepsAll(f, up);
    }
  }

  /** Conservation under any failures: each published event is journaled (or a
      duplicate there), still buffered, or was in a refused batch; never two of
      these. */
  lemma NothingElseIsLost(calls: seq<Call>)
    ensures var s, f := RunBuffered(BusState([], []), calls), FateOf(calls);
            && s.journal == InsertAll([], f.kept) && s.buffer == f.waiting && |s.buffer| < MAX_BATCH
            && multiset(f.kept) + multiset(f.waiting) + multiset(f.lost) == multiset(Published(calls))
  {
    FateIsState(calls);
    FateOfAll(calls);
  }

  // When nothing is lost, told from the calls

  /** Call `i` is refused, and finds an event in the buffer or brings one to the
      database: a full buffer's publish, a batch, or a flush. */
  predicate LosesAt(calls: seq<Call>, i: nat)
    requires i < |calls|
  {
    var waiting := RunBuffered(BusState([], []), calls[..i]).buffer;
    && !calls[i].up
    && match calls[i]
       case Publish(_, _) => |waiting| + 1 >= MAX_BATCH
       case PublishBatch(events, _) => events != []
       case Flush(_) => waiting != []
  }

  lemma TrackLoses(f: Fate, c: Call)
    requires |f.waiting| < MAX_BATCH
    ensures Track(f, c).lost != [] <==>
      || f.lost != []
      || (!c.up && match c
                   case Publish(_, _) => |f.waiting| + 1 >= MAX_BATCH
                   case PublishBatch(events, _) => events != []
                   case Flush(_) => f.waiting != [])
  {
  }

  /** Something is lost exactly when some refused call finds or brings an event. */
  lemma {:induction false} LossTold(calls: seq<Call>)
    ensures FateOf(calls).lost != [] <==> exists i :: 0 <= i < |calls| && LosesAt(calls, i)
  {
    if calls == [] {
    } else {
      var n, rest := |calls| - 1, calls[..|calls| - 1];
      LossTold(rest);
      FateIsState(rest);
      TrackLoses(FateOf(rest), calls[n]);
      forall i | 0 <= i < n ensures LosesAt(rest, i) <==> LosesAt(calls, i) {
        assert rest[..i] == calls[..i];
      }
      assert FateOf(calls).lost != [] <==> FateOf(rest).lost != [] || LosesAt(calls, n);
    }
  }

  /** Main result: after a run and a flush that gets through, the journal holds
      all that was published, in some order and first writer wins, exactly when
      no refused call finds or brings an event. */
  lemma KeptUnlessRefused(calls: seq<Call>)
    ensures var s, f := RunBuffered(BusState([], []), calls), FateOf(calls);
            && Settled(s) == InsertAll([], f.kept + f.waiting)
            && (multiset(f.kept + f.waiting) == multiset(Published(calls))
                <==> forall i | 0 <= i < |calls| :: !LosesAt(calls, i))
  {
    var f := FateOf(calls);
    FateIsState(calls);
    FateOfAll(calls);
    LossTold(calls);
    InsertAllSplit([], f.kept, f.waiting);
    assert multiset(f.kept + f.waiting) == multiset(f.kept) + multiset(f.waiting);
    assert f.lost == [] <==> |multiset(f.lost)| == 0;
    assert |multiset(Published(calls))| == |multiset(f.kept + f.waiting)| + |multiset(f.lost)|;
  }

  // Runs in which every database call succeeds

  predicate Up(calls: seq<Call>) {
    forall c <- calls :: c.up
  }

  predicate Singles(calls: seq<Call>) {
    forall c <- calls :: !c.PublishBatch?
  }

  /** Main result: at every step of a run of publishes and flushes the buffered
      bus is the direct bus with the buffer still to come. */
  lemma {:induction false} BufferedRefinesDirect(calls: seq<Call>)
    requires Up(calls) && Singles(calls)
    ensures var s := RunBuffered(BusState([], []), calls);
            Settled(s) == RunDirect([], calls) && |s.buffer| < MAX_BATCH
  {
    if calls == [] {
    } else {
      var rest, c := calls[..|calls| - 1], calls[|calls| - 1];
      assert c in calls && forall d <- rest :: d in calls;
      BufferedRefinesDirect(rest);
      if c.Publish? {
        PushSettles(RunBuffered(BusState([], []), rest), c.event);
      }
    }
  }

  /** After a flush the two journals are the same, row for row. */
  lemma FlushCoincides(calls: seq<Call>)
    requires Up(calls) && Singles(calls)
    ensures var s := StepBuffered(RunBuffered(BusState([], []), calls), Flush(true));
            s.journal == RunDirect([], calls) && s.buffer == []
  {
    BufferedRefinesDirect(calls);
  }

  // With batches, which bypass the buffer

  lemma {:induction false} InsertAllHolds(journal: seq<Event>, events: seq<Event>, id: (string, string, string))
    ensures Holds(InsertAll(journal, events), id) <==> Holds(journal, id) || Holds(events, id)
  {
    if events == [] {
    } else {
      var rest, last := events[..|events| - 1], events[|events| - 1];
      InsertAllHolds(journal, rest, id);
      var before := InsertAll(journal, rest);
      InsertHolds(before, last, id);
      if Holds(events, id) {
        var i :| 0 <= i < |events| && Identity(events[i]) == id;
        assert i < |rest| ==> Identity(rest[i]) == id;
      }
      if Holds(rest, id) {
        var i :| 0 <= i < |rest| && Identity(rest[i]) == id;
        assert Identity(events[i]) == id;
      }
      assert Identity(last) == Identity(events[|events| - 1]);
    }
  }

  lemma InsertHolds(journal: seq<Event>, e: Event, id: (string, string, string))
    ensures Holds(Insert(journal, e), id) <==> Holds(journal, id) || Identity(e) == id
  {
    var after := Insert(journal, e);
    assert forall i :: 0 <= i < |journal| ==> after[i] == journal[i];
    if !Holds(journal, Identity(e)) {
      assert Identity(after[|journal|]) == Identity(e);
    }
  }

  /** Whatever is interleaved, after a flush both journals hold the same keys. */
  lemma {:induction false} SameKeysAfterFlush(calls: seq<Call>, id: (string, string, string))
    requires Up(calls)
    ensures Holds(Settled(RunBuffered(BusState([], []), calls)), id) <==> Holds(RunDirect([], calls), id)
  {
    if calls == [] {
    } else {
      var rest, c := calls[..|calls| - 1], calls[|calls| - 1];
      assert c in calls && forall d <- rest :: d in calls;
      SameKeysAfterFlush(rest, id);
      var s, direct := RunBuffered(BusState([], []), rest), RunDirect([], rest);
      match c
      case Publish(e, _) =>
        PushSettles(s, e);
        InsertHolds(Settled(s), e, id);
        InsertHolds(direct, e, id);
      case PublishBatch(events, _) =>
        InsertAllHolds(s.journal, s.buffer, id);
        InsertAllHolds(s.journal, events, id);
        InsertAllHolds(InsertAll(s.journal, events), s.buffer, id);
        InsertAllHolds(direct, events, id);
      case Flush(_) =>
    }
  }

  /** The events of a batch that are new to the journal, first ones only. */
  function Novel(journal: seq<Event>, events: seq<Event>): seq<Event> {
    var after := InsertAll(journal, events);
    InsertAllExtends(journal, events);
    after[|journal|..]
  }

  lemma {:induction false} InsertAllExtends(journal: seq<Event>, events: seq<Event>)
    ensures journal <= InsertAll(journal, events)
  {
    if events == [] {
    } else {
      InsertAllExtends(journal, events[..|events| - 1]);
    }
  }

  /** Inserting a list or only its novel part comes to the same. */
  lemma {:induction false} NovelSuffices(journal: seq<Event>, first: seq<Event>, events: seq<Event>)
    ensures InsertAll(InsertAll(journal, first), events) == InsertAll(InsertAll(journal, first), Novel(journal, events))
  {
    var base := InsertAll(journal, first);
    InsertAllExtends(journal, first);
    if events == [] {
      assert Novel(journal, events) == [];
    } else {
      var rest, last := events[..|events| - 1], events[|events| - 1];
      NovelSuffices(journal, first, rest);
      var mid := InsertAll(journal, rest);
      InsertAllExtends(journal, rest);
      if Holds(mid, Identity(last)) {
        assert Novel(journal, events) == Novel(journal, rest);
        InsertAllHolds(journal, rest, Identity(last));
        InsertAllHolds(base, rest, Identity(last));
        if Holds(journal, Identity(last)) {
          PrefixHolds(journal, base, Identity(last));
        }
      } else {
        assert Novel(journal, events) == Novel(journal, rest) + [last];
        assert (Novel(journal, rest) + [last])[..|Novel(journal, rest)|] == Novel(journal, rest);
      }
    }
  }

  lemma PrefixHolds(journal: seq<Event>, after: seq<Event>, id: (string, string, string))
    requires journal <= after && Holds(journal, id)
    ensures Holds(after, id)
  {
    var i :| 0 <= i < |journal| && Identity(journal[i]) == id;
    assert after[i] == journal[i];
  }

  lemma {:induction false} AllHeld(journal: seq<Event>, events: seq<Event>)
    requires forall e <- events :: Holds(journal, Identity(e))
    ensures InsertAll(journal, events) == journal
  {
    if events == [] {
    } else {
      assert events[|events| - 1] in events && forall e <- events[..|events| - 1] :: e in events;
      AllHeld(journal, events[..|events| - 1]);
    }
  }

  lemma {:induction false} InsertAllSize(journal: seq<Event>, events: seq<Event>)
    ensures |InsertAll(journal, events)| <= |journal| + |events|
    ensures |InsertAll(journal, events)| == |journal| + |events| ==> InsertAll(journal, events) == journal + events
  {
    if events == [] {
    } else {
      InsertAllSize(journal, events[..|events| - 1]);
      assert events == events[..|events| - 1] + [events[|events| - 1]];
    }
  }

  /** A novel list goes in whole, and so does each of its prefixes. */
  lemma NovelGoesIn(journal: seq<Event>, events: seq<Event>, n: nat)
    requires n <= |Novel(journal, events)|
    ensures InsertAll(journal, Novel(journal, events)[..n]) == journal + Novel(journal, events)[..n]
    ensures InsertAll(journal, events) == journal + Novel(journal, events)
  {
    var novel := Novel(journal, events);
    InsertAllExtends(journal, events);
    NovelSuffices(journal, [], events);
    assert novel == novel[..n] + novel[n..];
    InsertAllSplit(journal, novel[..n], novel[n..]);
    InsertAllSize(journal, novel[..n]);
    InsertAllSize(InsertAll(journal, novel[..n]), novel[n..]);
  }

  lemma ConcatHolds(journal: seq<Event>, more: seq<Event>)
    ensures forall e <- more :: Holds(journal + more, Identity(e))
  {
    forall e <- more ensures Holds(journal + more, Identity(e)) {
      var i :| 0 <= i < |more| && more[i] == e;
      assert (journal + more)[|journal| + i] == e;
    }
  }

  /** If the novel part of one list begins that of another, inserting both
      leaves the novel part of the longer one, in either order. */
  lemma LongerThenShorter(journal: seq<Event>, a: seq<Event>, b: seq<Event>)
    requires Novel(journal, a) <= Novel(journal, b)
    ensures InsertAll(InsertAll(journal, b), a) == journal + Novel(journal, b)
  {
    var na, nb := Novel(journal, a), Novel(journal, b);
    NovelGoesIn(journal, b, |nb|);
    NovelSuffices(journal, b, a);
    ConcatHolds(journal, nb);
    assert forall e <- na :: e in nb;
    AllHeld(journal + nb, na);
  }

  lemma ShorterThenLonger(journal: seq<Event>, a: seq<Event>, b: seq<Event>)
    requires Novel(journal, a) <= Novel(journal, b)
    ensures InsertAll(InsertAll(journal, a), b) == journal + Novel(journal, b)
  {
    var na, nb := Novel(journal, a), Novel(journal, b);
    var rest := nb[|na|..];
    assert nb == na + rest;
    NovelGoesIn(journal, a, |na|);
    assert na[..|na|] == na;
    NovelSuffices(journal, a, b);
    InsertAllSplit(journal + na, na, rest);
    ConcatHolds(journal, na);
    AllHeld(journal + na, na);
    InsertAllSplit(journal, na, rest);
    NovelGoesIn(journal, b, |nb|);
    assert nb[..|nb|] == nb;
  }

  /** Neither novel part begins the other: they differ somewhere, and so do the
      journals that begin with them. */
  lemma OrdersDiffer(j: seq<Event>, x: seq<Event>, y: seq<Event>)
    requires !(Novel(j, x) <= Novel(j, y)) && !(Novel(j, y) <= Novel(j, x))
    ensures InsertAll(InsertAll(j, y), x) != InsertAll(InsertAll(j, x), y)
  {
    var a, b := Novel(j, x), Novel(j, y);
    NovelGoesIn(j, x, |a|);
    NovelGoesIn(j, y, |b|);
    InsertAllExtends(j + a, y);
    InsertAllExtends(j + b, x);
    var k := FirstDifference(a, b);
    assert (j + a)[|j| + k] == a[k] && (j + b)[|j| + k] == b[k];
  }

  /** Two lists can be inserted in either order exactly when the new events of
      one are the first new events of the other. */
  lemma EitherOrder(j: seq<Event>, x: seq<Event>, y: seq<Event>)
    ensures InsertAll(InsertAll(j, y), x) == InsertAll(InsertAll(j, x), y)
            <==> Novel(j, x) <= Novel(j, y) || Novel(j, y) <= Novel(j, x)
  {
    if Novel(j, x) <= Novel(j, y) {
      ShorterThenLonger(j, x, y);
      LongerThenShorter(j, x, y);
    } else if Novel(j, y) <= Novel(j, x) {
      ShorterThenLonger(j, y, x);
      LongerThenShorter(j, y, x);
    } else {
      OrdersDiffer(j, x, y);
    }
  }

  /** Exactly when a batch that overtakes the buffer leaves the journal a direct
      bus would have: when the new events of one are the first new events of
      the other. Otherwise the rows come out in another order, and on a shared
      key another event may have won. */
  lemma OvertakingBatch(s: BusState, events: seq<Event>)
    ensures StepBuffered(StepBuffered(s, PublishBatch(events, true)), Flush(true)).journal
            == InsertAll(Settled(s), events)
            <==> Novel(s.journal, s.buffer) <= Novel(s.journal, events)
                 || Novel(s.journal, events) <= Novel(s.journal, s.buffer)
  {
    EitherOrder(s.journal, s.buffer, events);
  }

  lemma FirstDifference(a: seq<Event>, b: seq<Event>) returns (k: nat)
    requires !(a <= b) && !(b <= a)
    ensures k < |a| && k < |b| && a[k] != b[k]
  {
    k := 0;
    while k < |a| && k < |b| && a[k] == b[k]
      invariant k <= |a| && k <= |b| && a[..k] == b[..k]
    {
      k := k + 1;
    }
    assert a[..|a|] == a && b[..|b|] == b;
  }

  const WAITS := Event("1", "task", "t", "created", "first", "")
  const OVERTAKES := Event("2", "task", "t", "created", "second", "")

  /** One event waits in the buffer, a batch with another one goes past it: the
      two rows come out in the other order. */
  lemma BatchOvertakes()
    ensures var s := RunBuffered(BusState([], []), [Publish(WAITS, true)]);
            && s == BusState([], [WAITS])
            && StepBuffered(StepBuffered(s, PublishBatch([OVERTAKES], true)), Flush(true)).journal
               == [OVERTAKES, WAITS]
            && InsertAll(Settled(s), [OVERTAKES]) == [WAITS, OVERTAKES]
  {
    assert [Publish(WAITS, true)][..0] == [] && RunBuffered(BusState([], []), []) == BusState([], []);
    InsertsOne([], WAITS);
    InsertsOne([], OVERTAKES);
    InsertsOne([OVERTAKES], WAITS);
    InsertsOne([WAITS], OVERTAKES);
    assert [] + [OVERTAKES] == [OVERTAKES] && [] + [WAITS] == [WAITS];
    assert [OVERTAKES] + [WAITS] == [OVERTAKES, WAITS] && [WAITS] + [OVERTAKES] == [WAITS, OVERTAKES];
  }

  /** One event waits, and the flush that would insert it is refused: it is
      neither in the journal nor in the buffer. */
  lemma RefusedFlushLoses()
    ensures var calls := [Publish(WAITS, true), Flush(false)];
            RunBuffered(BusState([], []), calls) == BusState([], []) && FateOf(calls).lost == [WAITS]
  {
    var calls := [Publish(WAITS, true), Flush(false)];
    assert calls[..1] == [Publish(WAITS, true)] && calls[..1][..0] == [];
    assert RunBuffered(BusState([], []), []) == BusState([], []) && FateOf([]) == Fate([], [], []);
    assert RunBuffered(BusState([], []), calls[..1]) == BusState([], [WAITS]);
    assert FateOf(calls[..1]) == Fate([], [WAITS], []);
  }

  lemma InsertsOne(journal: seq<Event>, e: Event)
    requires forall i | 0 <= i < |journal| :: journal[i].key != e.key
    ensures InsertAll(journal, [e]) == journal + [e]
  {
    assert [e][..0] == [] && InsertAll(journal, []) == journal;
  }
}
