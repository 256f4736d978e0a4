/** The direct and the buffered event bus over one journal. */
module EventBus {

  datatype Event = Event(id: string, kind: string, aggregate: string, eventKind: string, key: string, payload: string)

  datatype Result = Ok | DatabaseError

  /** The columns of the journal's unique constraint. */
  function Identity(e: Event): (string, string, string) {
    (e.kind, e.aggregate, e.key)
  }

  predicate Holds(journal: seq<Event>, id: (string, string, string)) {
    exists i :: 0 <= i < |journal| && Identity(journal[i]) == id
  }

  /** First writer wins; a duplicate is silently ignored. */
  function Insert(journal: seq<Event>, e: Event): seq<Event> {
    if Holds(journal, Identity(e)) then journal else journal + [e]
  }

  function InsertAll(journal: seq<Event>, events: seq<Event>): seq<Event> {
    if events == [] then journal
    else Insert(InsertAll(journal, events[..|events| - 1]), events[|events| - 1])
  }

  /** The two rows agree in kind, aggregate and key. */
  predicate SameColumns(d: Event, e: Event) {
    d.kind == e.kind && d.aggregate == e.aggregate && d.key == e.key
  }

  /** Some row agrees with the event. */
  predicate HasRow(journal: seq<Event>, e: Event) {
    exists i :: 0 <= i < |journal| && SameColumns(journal[i], e)
  }

  // Queries

  function Matching(journal: seq<Event>, kind: string, aggregate: string): seq<Event> {
    if journal == [] then []
    else
      var last := journal[|journal| - 1];
      var rest := Matching(journal[..|journal| - 1], kind, aggregate);
      if last.kind == kind && last.aggregate == aggregate then [last] + rest else rest
  }

  function CountOf(journal: seq<Event>, kind: string, aggregate: string, eventKind: string): nat {
    if journal == [] then 0
    else
      var last := journal[|journal| - 1];
      CountOf(journal[..|journal| - 1], kind, aggregate, eventKind)
      + if last.kind == kind && last.aggregate == aggregate && last.eventKind == eventKind then 1 else 0
  }

  lemma OneRowLess(journal: seq<Event>, i: nat, kind: string, aggregate: string, all: seq<Event>)
    requires i < |journal|
    ensures var e := journal[i];
            all + Matching(journal[..i + 1], kind, aggregate) ==
            (if e.kind == kind && e.aggregate == aggregate then all + [e] else all)
            + Matching(journal[..i], kind, aggregate)
  {
    assert journal[..i + 1][..i] == journal[..i];
    assert all + ([journal[i]] + Matching(journal[..i], kind, aggregate))
        == (all + [journal[i]]) + Matching(journal[..i], kind, aggregate);
  }

  /** Every publish goes straight to the journal. `up` tells whether the
      database carries out the call or refuses it; a refused batch rolls back. */
  class DirectBus {
    var journal: seq<Event>

    constructor ()
      ensures journal == []
    {
      journal := [];
    }

    method Publish(e: Event, up: bool) returns (r: Result)
      modifies this
      ensures r == if up then Ok else DatabaseError
      ensures journal == if up then Insert(old(journal), e) else old(journal)
      ensures journal == if up && !HasRow(old(journal), e) then old(journal) + [e] else old(journal)
    {
      if !up {
        return DatabaseError;
      }
      assert forall k | 0 <= k < |journal| :: Identity(journal[k]) == Identity(e) <==> SameColumns(journal[k], e);
      InsertRow(e);
      return Ok;
    }

    method InsertRow(e: Event)
      modifies this
      ensures journal == Insert(old(journal), e)
    {
      var conflict := false;
      for i := 0 to |journal|
        invariant conflict <==> exists k :: 0 <= k < i && Identity(journal[k]) == Identity(e)
      {
        if Identity(journal[i]) == Identity(e) {
          conflict := true;
        }
      }
      if !conflict {
        journal := journal + [e];
      }
    }

    method PublishBatch(events: seq<Event>, up: bool) returns (r: Result)
      modifies this
      ensures r == if up then Ok else DatabaseError
      ensures journal == if up then InsertAll(old(journal), events) else old(journal)
    {
      if !up {
        return DatabaseError;
      }
      for i := 0 to |events|
        invariant journal == InsertAll(old(journal), events[..i])
      {
        assert events[..i + 1][..i] == events[..i];
        InsertRow(events[i]);
      }
      assert events[..|events|] == events;
      return Ok;
    }

    method QueryByAggregate(kind: string, aggregate: string, limit: nat) returns (rows: seq<Event>)
      ensures var all := Matching(journal, kind, aggregate);
              rows == if |all| <= limit then all else all[..limit]
    {
      rows := [];
      ghost var all := [];
      var i := |journal|;
      assert journal[..i] == journal;
      while i > 0
        invariant 0 <= i <= |journal|
        invariant Matching(journal, kind, aggregate) == all + Matching(journal[..i], kind, aggregate)
        invariant rows == if |all| <= limit then all else all[..limit]
      {
        i := i - 1;
        OneRowLess(journal, i, kind, aggregate, all);
        var e := journal[i];
        if e.kind == kind && e.aggregate == aggregate {
          all := all + [e];
          if |rows| < limit {
            rows := rows + [e];
          }
        }
      }
    }

    method Count(kind: string, aggregate: string, eventKind: string) returns (count: nat)
      ensures count == CountOf(journal, kind, aggregate, eventKind)
    {
      count := 0;
      for i := 0 to |journal|
        invariant count == CountOf(journal[..i], kind, aggregate, eventKind)
      {
        assert journal[..i + 1][..i] == journal[..i];
        var e := journal[i];
        if e.kind == kind && e.aggregate == aggregate && e.eventKind == eventKind {
          count := count + 1;
        }
      }
      assert journal[..|journal|] == journal;
    }
  }

  const MAX_BATCH: nat := 100

  datatype BusState = BusState(journal: seq<Event>, buffer: seq<Event>)

  datatype Call = Publish(event: Event, up: bool) | PublishBatch(events: seq<Event>, up: bool) | Flush(up: bool)

  /** The batch leaves the buffer before the database is asked: a refused
      batch is gone. */
  function Drain(s: BusState, up: bool): BusState {
    BusState(if up then InsertAll(s.journal, s.buffer) else s.journal, [])
  }

  function StepBuffered(s: BusState, c: Call): BusState {
    match c
    case Publish(e, up) =>
      var pushed := s.(buffer := s.buffer + [e]);
      if |pushed.buffer| >= MAX_BATCH then Drain(pushed, up) else pushed
    case PublishBatch(events, up) => if up then s.(journal := InsertAll(s.journal, events)) else s
    case Flush(up) => if s.buffer == [] then s else Drain(s, up)
  }

  function StepDirect(journal: seq<Event>, c: Call): seq<Event> {
    match c
    case Publish(e, up) => if up then Insert(journal, e) else journal
    case PublishBatch(events, up) => if up then InsertAll(journal, events) else journal
    case Flush(_) => journal
  }

  /** Events wait in a buffer of at most `MAX_BATCH` before they are inserted. */
  class BufferedBus {
    const fallback: DirectBus
    var buffer: seq<Event>

    ghost function Model(): BusState
      reads this, fallback
    {
      BusState(fallback.journal, buffer)
    }

    constructor ()
      ensures fresh(fallback) && Model() == BusState([], [])
    {
      fallback := new DirectBus();
      buffer := [];
    }

    method PublishEvent(e: Event, up: bool) returns (r: Result)
      modifies this, fallback
      ensures Model() == StepBuffered(old(Model()), Publish(e, up))
      ensures r.DatabaseError? <==> !up && |old(buffer)| + 1 >= MAX_BATCH
    {
      buffer := buffer + [e];
      if |buffer| >= MAX_BATCH {
        var batch := buffer;
        buffer := [];
        r := fallback.PublishBatch(batch, up);
        return r;
      }
      return Ok;
    }

    method PublishBatchOf(events: seq<Event>, up: bool) returns (r: Result)
      modifies this, fallback
      ensures Model() == StepBuffered(old(Model()), PublishBatch(events, up))
      ensures r.DatabaseError? <==> !up
    {
      r := fallback.PublishBatch(events, up);
    }

    method FlushBuffer(up: bool) returns (r: Result)
      modifies this, fallback
      ensures Model() == StepBuffered(old(Model()), Flush(up))
      ensures r.DatabaseError? <==> !up && old(buffer) != []
    {
      if buffer != [] {
        var batch := buffer;
        buffer := [];
        r := fallback.PublishBatch(batch, up);
        return r;
      }
      return Ok;
    }
  }
}
