/** What the buses keep, told from the columns of the journal: one row for each
    kind, aggregate and key, and the first event published under them. */
module BusColumns {
  import opened EventBus
  import opened BusRefinement

  ghost predicate RowsApart(journal: seq<Event>) {
    forall i, j | 0 <= i < j < |journal| :: !SameColumns(journal[i], journal[j])
  }

  lemma RowIsHeld(journal: seq<Event>, e: Event)
    ensures HasRow(journal, e) <==> Holds(journal, Identity(e))
  {
    if HasRow(journal, e) {
      var i :| 0 <= i < |journal| && SameColumns(journal[i], e);
      assert Identity(journal[i]) == Identity(e);
    }
    if Holds(journal, Identity(e)) {
      var i :| 0 <= i < |journal| && Identity(journal[i]) == Identity(e);
      assert SameColumns(journal[i], e);
    }
  }

  /** A publish that gets through leaves the journal alone exactly when a row with
      the event's kind, aggregate and key is there, whatever its id and payload;
      otherwise it appends the event. */
  lemma PublishLaw(journal: seq<Event>, e: Event)
    ensures StepDirect(journal, Publish(e, true)) == if HasRow(journal, e) then journal else journal + [e]
    ensures StepDirect(journal, Publish(e, false)) == journal
  {
    RowIsHeld(journal, e);
  }

  /** The events that come first under their columns, after those of `journal`. */
  function FirstOnes(journal: seq<Event>, events: seq<Event>): seq<Event> {
    if events == [] then []
    else
      var rest, last := events[..|events| - 1], events[|events| - 1];
      FirstOnes(journal, rest)
      + if HasRow(journal, last) || HasRow(rest, last) then [] else [last]
  }

  lemma HasRowSplit(a: seq<Event>, b: seq<Event>, e: Event)
    ensures HasRow(a + b, e) <==> HasRow(a, e) || HasRow(b, e)
  {
    if HasRow(a, e) {
      var i :| 0 <= i < |a| && SameColumns(a[i], e);
      assert SameColumns((a + b)[i], e);
    }
    if HasRow(b, e) {
      var i :| 0 <= i < |b| && SameColumns(b[i], e);
      assert SameColumns((a + b)[|a| + i], e);
    }
  }

  lemma HasRowOneMore(journal: seq<Event>, last: Event, e: Event)
    ensures HasRow(journal + [last], e) <==> HasRow(journal, e) || SameColumns(last, e)
  {
    HasRowSplit(journal, [last], e);
    assert HasRow([last], e) <==> SameColumns(last, e) by {
      assert [last][0] == last;
    }
  }

  /** Every event has a row among the first ones, or had one before. */
  lemma {:induction false} FirstOnesCover(journal: seq<Event>, events: seq<Event>, e: Event)
    ensures HasRow(FirstOnes(journal, events), e) || HasRow(journal, e) <==> HasRow(events, e) || HasRow(journal, e)
  {
    if events == [] {
    } else {
      var rest, last := events[..|events| - 1], events[|events| - 1];
      FirstOnesCover(journal, rest, e);
      assert rest + [last] == events;
      HasRowOneMore(rest, last, e);
      HasRowOneMore(FirstOnes(journal, rest), last, e);
      RowsTransfer(journal, last, e);
      RowsTransfer(rest, last, e);
      assert FirstOnes(journal, rest) + [] == FirstOnes(journal, rest);
    }
  }

  lemma RowsTransfer(journal: seq<Event>, d: Event, e: Event)
    ensures SameColumns(d, e) ==> (HasRow(journal, d) <==> HasRow(journal, e))
  {
  }

  /** A batch appends exactly the events that come first under their columns. */
  lemma {:induction false} BatchLaw(journal: seq<Event>, events: seq<Event>)
    ensures InsertAll(journal, events) == journal + FirstOnes(journal, events)
  {
    if events == [] {
    } else {
      var rest, last := events[..|events| - 1], events[|events| - 1];
      BatchLaw(journal, rest);
      FirstOnesCover(journal, rest, last);
      HasRowSplit(journal, FirstOnes(journal, rest), last);
      RowIsHeld(InsertAll(journal, rest), last);
      assert journal + FirstOnes(journal, rest) + [] == journal + FirstOnes(journal, rest);
      assert journal + (FirstOnes(journal, rest) + [last]) == journal + FirstOnes(journal, rest) + [last];
    }
  }

  lemma {:induction false} BatchApart(journal: seq<Event>, events: seq<Event>)
    requires RowsApart(journal)
    ensures RowsApart(InsertAll(journal, events))
  {
    if events == [] {
    } else {
      BatchApart(journal, events[..|events| - 1]);
      RowIsHeld(InsertAll(journal, events[..|events| - 1]), events[|events| - 1]);
    }
  }

  /** The events of the calls that got through, in order. */
  function Accepted(calls: seq<Call>): seq<Event> {
    if calls == [] then []
    else
      var rest := Accepted(calls[..|calls| - 1]);
      match calls[|calls| - 1]
      case Publish(e, up) => if up then rest + [e] else rest
      case PublishBatch(events, up) => if up then rest + events else rest
      case Flush(_) => rest
  }

  lemma InsertsLast(journal: seq<Event>, events: seq<Event>, e: Event)
    ensures InsertAll(journal, events + [e]) == Insert(InsertAll(journal, events), e)
  {
    assert (events + [e])[..|events|] == events;
  }

  lemma {:induction false} DirectIsAccepted(calls: seq<Call>)
    ensures RunDirect([], calls) == InsertAll([], Accepted(calls))
  {
    if calls == [] {
    } else {
      var rest := calls[..|calls| - 1];
      DirectIsAccepted(rest);
      match calls[|calls| - 1]
      case Publish(e, _) => InsertsLast([], Accepted(rest), e);
      case PublishBatch(events, _) => InsertAllSplit([], Accepted(rest), events);
      case Flush(_) =>
    }
  }

  /** Main result for the direct bus, over every run: the journal is the events
      that got through, the first under each kind, aggregate and key, in order;
      no two rows agree in all three, and every event that got through has a row. */
  lemma DirectRunLaw(calls: seq<Call>)
    ensures RunDirect([], calls) == FirstOnes([], Accepted(calls))
    ensures RowsApart(RunDirect([], calls))
    ensures forall e: Event :: HasRow(RunDirect([], calls), e) <==> HasRow(Accepted(calls), e)
  {
    DirectIsAccepted(calls);
    BatchLaw([], Accepted(calls));
    BatchApart([], Accepted(calls));
    assert [] + FirstOnes([], Accepted(calls)) == FirstOnes([], Accepted(calls));
    forall e: Event ensures HasRow(RunDirect([], calls), e) <==> HasRow(Accepted(calls), e) {
      FirstOnesCover([], Accepted(calls), e);
    }
  }

  /** And for the buffered bus, of the events that reached the journal. */
  lemma BufferedRunLaw(calls: seq<Call>)
    ensures var journal := RunBuffered(BusState([], []), calls).journal;
            && journal == FirstOnes([], FateOf(calls).kept) && RowsApart(journal)
            && forall e: Event :: HasRow(journal, e) <==> HasRow(FateOf(calls).kept, e)
  {
    var kept := FateOf(calls).kept;
    FateIsState(calls);
    BatchLaw([], kept);
    BatchApart([], kept);
    assert [] + FirstOnes([], kept) == FirstOnes([], kept);
    forall e: Event ensures HasRow(FirstOnes([], kept), e) <==> HasRow(kept, e) {
      FirstOnesCover([], kept, e);
    }
  }

  // Concrete publishes

  const FIRST := Event("1", "task", "t", "created", "k", "")

  lemma JustFirst(e: Event)
    ensures HasRow([FIRST], e) <==> SameColumns(FIRST, e)
  {
    assert [FIRST][0] == FIRST;
  }

  /** Published again under a fresh id, another event kind and another payload:
      ignored. The same key under another aggregate, another kind or another key:
      a second row. */
  lemma FirstWriterWins()
    ensures StepDirect([FIRST], Publish(Event("2", "task", "t", "started", "k", "new"), true)) == [FIRST]
    ensures var e := Event("1", "task", "u", "created", "k", "");
            StepDirect([FIRST], Publish(e, true)) == [FIRST, e]
    ensures var e := Event("1", "cycle", "t", "created", "k", "");
            StepDirect([FIRST], Publish(e, true)) == [FIRST, e]
    ensures var e := Event("1", "task", "t", "created", "kk", "");
            StepDirect([FIRST], Publish(e, true)) == [FIRST, e]
  {
    var again := Event("2", "task", "t", "started", "k", "new");
    var aggregate := Event("1", "task", "u", "created", "k", "");
    var kind := Event("1", "cycle", "t", "created", "k", "");
    var key := Event("1", "task", "t", "created", "kk", "");
    JustFirst(again);
    JustFirst(aggregate);
    JustFirst(kind);
    JustFirst(key);
    assert FIRST.aggregate[0] != aggregate.aggregate[0] && |FIRST.kind| != |kind.kind| && |FIRST.key| != |key.key|;
    PublishLaw([FIRST], again);
    PublishLaw([FIRST], aggregate);
    PublishLaw([FIRST], kind);
    PublishLaw([FIRST], key);
  }

  // The buffer

  function Publishes(events: seq<Event>): seq<Call> {
    seq(|events|, i requires 0 <= i < |events| => Publish(events[i], true))
  }

  /** Events wait until there are a hundred of them; the hundredth takes them all
      to the journal. */
  lemma {:induction false} HundredthFlushes(events: seq<Event>)
    requires |events| <= 100
    ensures RunBuffered(BusState([], []), Publishes(events)) ==
            if |events| < 100 then BusState([], events) else BusState(FirstOnes([], events), [])
  {
    if events == [] {
    } else {
      var rest, last := events[..|events| - 1], events[|events| - 1];
      HundredthFlushes(rest);
      assert Publishes(events)[..|rest|] == Publishes(rest);
      assert events == rest + [last];
      BatchLaw([], events);
      assert [] + FirstOnes([], events) == FirstOnes([], events);
    }
  }

  /** What each call of the buffered bus does, up or refused. */
  lemma BufferedCallLaw(s: BusState, e: Event, events: seq<Event>, up: bool)
    ensures StepBuffered(s, Publish(e, up)) ==
            if |s.buffer| + 1 < 100 then BusState(s.journal, s.buffer + [e])
            else if up then BusState(s.journal + FirstOnes(s.journal, s.buffer + [e]), [])
            else BusState(s.journal, [])
    ensures StepBuffered(s, PublishBatch(events, up)) ==
            if up then BusState(s.journal + FirstOnes(s.journal, events), s.buffer) else s
    ensures StepBuffered(s, Flush(up)) ==
            if up then BusState(s.journal + FirstOnes(s.journal, s.buffer), []) else BusState(s.journal, [])
  {
    BatchLaw(s.journal, s.buffer + [e]);
    BatchLaw(s.journal, events);
    BatchLaw(s.journal, s.buffer);
  }

  // Queries

  /** The positions of the rows with this kind and aggregate, newest first. */
  ghost predicate NewestFirst(journal: seq<Event>, kind: string, aggregate: string, rows: seq<Event>, at: seq<nat>) {
    && |at| == |rows|
    && (forall i | 0 <= i < |at| :: at[i] < |journal| && rows[i] == journal[at[i]]
                                    && rows[i].kind == kind && rows[i].aggregate == aggregate)
    && (forall i, j | 0 <= i < j < |at| :: at[i] > at[j])
    && forall k | 0 <= k < |journal| && journal[k].kind == kind && journal[k].aggregate == aggregate :: k in at
  }

  lemma NoMatchMore(rest: seq<Event>, last: Event, kind: string, aggregate: string, rows: seq<Event>, at: seq<nat>)
    requires NewestFirst(rest, kind, aggregate, rows, at) && !(last.kind == kind && last.aggregate == aggregate)
    ensures NewestFirst(rest + [last], kind, aggregate, rows, at)
  {
    assert forall k | 0 <= k < |rest| :: (rest + [last])[k] == rest[k];
  }

  lemma OneMatchMore(rest: seq<Event>, last: Event, kind: string, aggregate: string, rows: seq<Event>, at: seq<nat>)
    requires NewestFirst(rest, kind, aggregate, rows, at) && last.kind == kind && last.aggregate == aggregate
    ensures NewestFirst(rest + [last], kind, aggregate, [last] + rows, [|rest|] + at)
  {
    var journal, places := rest + [last], [|rest|] + at;
    assert forall k | 0 <= k < |rest| :: journal[k] == rest[k];
    assert forall i | 0 < i < |places| :: places[i] == at[i - 1] && ([last] + rows)[i] == rows[i - 1];
    forall k | 0 <= k < |rest| && journal[k].kind == kind && journal[k].aggregate == aggregate
      ensures k in places
    {
      assert rest[k].kind == kind && k in at;
    }
  }

  /** The query's rows are exactly those, each once. */
  lemma {:induction false} MatchingLaw(journal: seq<Event>, kind: string, aggregate: string) returns (at: seq<nat>)
    ensures NewestFirst(journal, kind, aggregate, Matching(journal, kind, aggregate), at)
  {
    if journal == [] {
      at := [];
    } else {
      var rest, last := journal[..|journal| - 1], journal[|journal| - 1];
      var before := MatchingLaw(rest, kind, aggregate);
      assert rest + [last] == journal;
      if last.kind == kind && last.aggregate == aggregate {
        OneMatchMore(rest, last, kind, aggregate, Matching(rest, kind, aggregate), before);
        at := [|rest|] + before;
      } else {
        NoMatchMore(rest, last, kind, aggregate, Matching(rest, kind, aggregate), before);
        at := before;
      }
    }
  }

  predicate Counts(e: Event, kind: string, aggregate: string, eventKind: string) {
    e.kind == kind && e.aggregate == aggregate && e.eventKind == eventKind
  }

  /** The positions of the rows that agree in all three columns. */
  ghost function Places(journal: seq<Event>, kind: string, aggregate: string, eventKind: string): set<nat> {
    set i: nat | i < |journal| && Counts(journal[i], kind, aggregate, eventKind)
  }

  lemma OnePlaceMore(rest: seq<Event>, last: Event, kind: string, aggregate: string, eventKind: string)
    ensures |Places(rest + [last], kind, aggregate, eventKind)| ==
            |Places(rest, kind, aggregate, eventKind)| + if Counts(last, kind, aggregate, eventKind) then 1 else 0
  {
    var before, all := Places(rest, kind, aggregate, eventKind), Places(rest + [last], kind, aggregate, eventKind);
    assert forall i: nat | i < |rest| :: (rest + [last])[i] == rest[i];
    if Counts(last, kind, aggregate, eventKind) {
      assert all == before + {|rest|};
    } else {
      assert all == before;
    }
  }

  /** Counting counts those positions. */
  lemma {:induction false} CountLaw(journal: seq<Event>, kind: string, aggregate: string, eventKind: string)
    ensures CountOf(journal, kind, aggregate, eventKind) == |Places(journal, kind, aggregate, eventKind)|
  {
    if journal == [] {
    } else {
      var rest, last := journal[..|journal| - 1], journal[|journal| - 1];
      CountLaw(rest, kind, aggregate, eventKind);
      OnePlaceMore(rest, last, kind, aggregate, eventKind);
      assert rest + [last] == journal;
    }
  }
}
