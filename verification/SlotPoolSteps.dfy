/** The slot pool under any interleaving of its lock points. An acquire takes
    the `available` lock, pops, and keeps that lock until it has entered its
    slot under the `assignments` lock; a release takes them the other way round. */
module SlotPoolSteps {
  import opened SlotPool

  type Worker = nat

  /** A mutex, with what its owner is carrying. */
  datatype Lock = Free | Owned(worker: Worker, task: string, slot: nat)

  datatype Control = AcquireWaits(task: string) | ReleaseWaits(task: string) | Inside

  /** Workers not in `workers` are idle. */
  datatype State = State(available: seq<nat>, held: map<string, nat>, availableLock: Lock, assignmentsLock: Lock,
                         workers: map<Worker, Control>)

  datatype Move =
    | CallAcquire(task: string)
    | CallRelease(task: string)
    | PopSlot
    | EnterSlot
    | RemoveEntry
    | PushSlot

  predicate Enabled(s: State, w: Worker, m: Move) {
    match m
    case CallAcquire(_) => w !in s.workers
    case CallRelease(_) => w !in s.workers
    case PopSlot => w in s.workers && s.workers[w].AcquireWaits? && s.availableLock.Free?
    case EnterSlot => s.availableLock.Owned? && s.availableLock.worker == w && s.assignmentsLock.Free?
    case RemoveEntry => w in s.workers && s.workers[w].ReleaseWaits? && s.assignmentsLock.Free?
    case PushSlot => s.assignmentsLock.Owned? && s.assignmentsLock.worker == w && s.availableLock.Free?
  }

  /** A worker that is not enabled stays where it is. */
  function Next(s: State, w: Worker, m: Move): State {
    if !Enabled(s, w, m) then s
    else
      match m
      case CallAcquire(task) => s.(workers := s.workers[w := AcquireWaits(task)])
      case CallRelease(task) => s.(workers := s.workers[w := ReleaseWaits(task)])
      case PopSlot =>
        var task := s.workers[w].task;
        if s.available == [] then s.(workers := s.workers - {w})
        else
          s.(available := s.available[1..], availableLock := Owned(w, task, s.available[0]),
             workers := s.workers[w := Inside])
      case EnterSlot =>
        s.(held := s.held[s.availableLock.task := s.availableLock.slot], availableLock := Free,
           workers := s.workers - {w})
      case RemoveEntry =>
        var task := s.workers[w].task;
        if task !in s.held then s.(workers := s.workers - {w})
        else
          s.(held := s.held - {task}, assignmentsLock := Owned(w, task, s.held[task]),
             workers := s.workers[w := Inside])
      case PushSlot =>
        s.(available := s.available + [s.assignmentsLock.slot], assignmentsLock := Free, workers := s.workers - {w})
  }

  function Initial(size: nat): State {
    State(Slots(size), map[], Free, Free, map[])
  }

  function After(s: State, steps: seq<(Worker, Move)>): State {
    if steps == [] then s
    else Next(After(s, steps[..|steps| - 1]), steps[|steps| - 1].0, steps[|steps| - 1].1)
  }

  // Linearisation. An acquire takes effect when it enters its slot or finds the
  // queue empty, a release when it pushes or finds no entry; until then the
  // pool is as if the call had not begun.

  function Abstract(s: State): Pool {
    Pool(if s.availableLock.Owned? then [s.availableLock.slot] + s.available else s.available,
         if s.assignmentsLock.Owned? then s.held[s.assignmentsLock.task := s.assignmentsLock.slot] else s.held)
  }

  /** The operation, if any, that takes effect in this move. */
  function Effective(s: State, w: Worker, m: Move): seq<Op> {
    if !Enabled(s, w, m) then []
    else
      match m
      case PopSlot => if s.available == [] then [AcquireOp(s.workers[w].task)] else []
      case EnterSlot => [AcquireOp(s.availableLock.task)]
      case RemoveEntry => if s.workers[w].task !in s.held then [ReleaseOp(s.workers[w].task)] else []
      case PushSlot => [ReleaseOp(s.assignmentsLock.task)]
      case _ => []
  }

  function History(s: State, steps: seq<(Worker, Move)>): seq<Op> {
    if steps == [] then []
    else
      var rest, last := steps[..|steps| - 1], steps[|steps| - 1];
      History(s, rest) + Effective(After(s, rest), last.0, last.1)
  }

  // Replies

  datatype Answer = ToAcquire(task: string, reply: Acquired) | ToRelease(task: string)

  /** What the one-at-a-time pool answers. */
  function AnswerOf(p: Pool, op: Op): Answer {
    match op
    case AcquireOp(task) => ToAcquire(task, Acquire(p, task).1)
    case ReleaseOp(task) => ToRelease(task)
  }

  function Answers(size: nat, ops: seq<Op>): seq<Answer> {
    if ops == [] then []
    else
      var rest := ops[..|ops| - 1];
      Answers(size, rest) + [AnswerOf(RunOps(size, rest).pool, ops[|ops| - 1])]
  }

  /** The call that returns in this move, with the slot its worker carries. */
  function Returned(s: State, w: Worker, m: Move): seq<Answer> {
    if !Enabled(s, w, m) then []
    else
      match m
      case PopSlot => if s.available == [] then [ToAcquire(s.workers[w].task, PoolExhausted)] else []
      case EnterSlot => [ToAcquire(s.availableLock.task, Slot(s.availableLock.slot))]
      case RemoveEntry => if s.workers[w].task !in s.held then [ToRelease(s.workers[w].task)] else []
      case PushSlot => [ToRelease(s.assignmentsLock.task)]
      case _ => []
  }

  function Replies(s: State, steps: seq<(Worker, Move)>): seq<Answer> {
    if steps == [] then []
    else
      var rest, last := steps[..|steps| - 1], steps[|steps| - 1];
      Replies(s, rest) + Returned(After(s, rest), last.0, last.1)
  }

  /** The task being released has no entry. */
  predicate EntryRemoved(s: State) {
    s.assignmentsLock.Owned? ==> s.assignmentsLock.task !in s.held
  }

  lemma MoveRefines(s: State, w: Worker, m: Move, l: Ledger)
    requires EntryRemoved(s) && l.pool == Abstract(s)
    ensures EntryRemoved(Next(s, w, m))
    ensures Effective(s, w, m) == [] ==> Abstract(Next(s, w, m)) == l.pool
    ensures Effective(s, w, m) != [] ==> Abstract(Next(s, w, m)) == Apply(l, Effective(s, w, m)[0]).pool
  {
    if Enabled(s, w, m) {
      var next := Next(s, w, m);
      match m
      case PopSlot => assert s.available != [] ==> [s.available[0]] + s.available[1..] == s.available;
      case EnterSlot => assert ([s.availableLock.slot] + s.available)[1..] == s.available;
      case RemoveEntry =>
        if s.workers[w].task in s.held {
          assert Abstract(next).held == s.held;
        }
      case PushSlot =>
        assert s.held[s.assignmentsLock.task := s.assignmentsLock.slot] - {s.assignmentsLock.task} == s.held;
      case _ =>
    }
  }

  /** A call returns in the move in which it takes effect, with the answer the
      one-at-a-time pool would give. */
  lemma MoveReturns(s: State, w: Worker, m: Move)
    ensures Effective(s, w, m) == [] ==> Returned(s, w, m) == []
    ensures Effective(s, w, m) != [] ==> Returned(s, w, m) == [AnswerOf(Abstract(s), Effective(s, w, m)[0])]
  {
  }

  /** Main result: every interleaving is the one-at-a-time pool run on the
      operations in the order they took effect, and every call returns what it
      returns there. */
  lemma {:induction false} Linearizable(size: nat, steps: seq<(Worker, Move)>)
    ensures var s := After(Initial(size), steps);
            Abstract(s) == RunOps(size, History(Initial(size), steps)).pool && EntryRemoved(s)
    ensures Replies(Initial(size), steps) == Answers(size, History(Initial(size), steps))
  {
    if steps == [] {
    } else {
      var rest, last := steps[..|steps| - 1], steps[|steps| - 1];
      Linearizable(size, rest);
      var s, ops := After(Initial(size), rest), History(Initial(size), rest);
      MoveRefines(s, last.0, last.1, RunOps(size, ops));
      MoveReturns(s, last.0, last.1);
      var more := Effective(s, last.0, last.1);
      if more == [] {
        assert ops + more == ops;
      } else {
        assert (ops + more)[..|ops + more| - 1] == ops;
      }
    }
  }

  // Safety in the concurrent state itself

  /** Slots in the hands of a worker between its two locks. */
  function InHand(s: State): seq<nat> {
    (if s.availableLock.Owned? then [s.availableLock.slot] else [])
    + (if s.assignmentsLock.Owned? then [s.assignmentsLock.slot] else [])
  }

  ghost predicate Distinct(xs: seq<nat>) {
    forall i, j :: 0 <= i < j < |xs| ==> xs[i] != xs[j]
  }

  /** No slot is free, in hand, and held in two ways at once. */
  ghost predicate SlotsApart(s: State, size: nat) {
    && Distinct(s.available) && Distinct(InHand(s))
    && (forall x <- InHand(s) :: x !in s.available && x !in s.held.Values && x < size)
    && (forall t, u :: t in s.held && u in s.held && t != u ==> s.held[t] != s.held[u])
    && (forall t <- s.held :: s.held[t] !in s.available)
  }

  lemma QueueApart(s: State, l: Ledger, size: nat)
    requires l.pool == Abstract(s) && Accounted(l, size)
    ensures Distinct(s.available)
    ensures s.availableLock.Owned? ==> s.availableLock.slot !in s.available && s.availableLock.slot in l.pool.available
    ensures forall x <- s.available :: x in l.pool.available
  {
    var p := l.pool.available;
    assert forall i :: 0 <= i < |s.available| ==> p[|p| - |s.available| + i] == s.available[i];
    if s.availableLock.Owned? {
      assert p[0] == s.availableLock.slot;
    }
  }

  lemma EntriesApart(s: State, l: Ledger, size: nat)
    requires EntryRemoved(s) && l.pool == Abstract(s) && Accounted(l, size)
    ensures forall t <- s.held :: t in l.pool.held && l.pool.held[t] == s.held[t]
    ensures s.assignmentsLock.Owned? ==>
            s.assignmentsLock.slot !in s.held.Values && s.assignmentsLock.slot in l.pool.held.Values
    ensures |l.pool.held| == |s.held| + if s.assignmentsLock.Owned? then 1 else 0
  {
    if s.assignmentsLock.Owned? {
      var lock := s.assignmentsLock;
      assert l.pool.held[lock.task] == lock.slot;
      assert l.pool.held.Keys == s.held.Keys + {lock.task};
      assert |l.pool.held| == |l.pool.held.Keys| && |s.held| == |s.held.Keys|;
      forall t <- s.held ensures s.held[t] != lock.slot {
        assert l.pool.held[t] == s.held[t];
      }
    }
  }

  lemma HandApart(s: State, l: Ledger, size: nat)
    requires EntryRemoved(s) && l.pool == Abstract(s) && Accounted(l, size)
    ensures Distinct(InHand(s))
    ensures forall x <- InHand(s) :: x !in s.available && x !in s.held.Values && x < size
  {
    QueueApart(s, l, size);
    EntriesApart(s, l, size);
    assert forall x <- l.pool.held.Values :: x !in l.pool.available;
    assert forall x <- s.held.Values :: x in l.pool.held.Values;
  }

  lemma AbstractApart(s: State, l: Ledger, size: nat)
    requires EntryRemoved(s) && l.pool == Abstract(s) && Accounted(l, size)
    ensures SlotsApart(s, size)
    ensures |s.available| + |InHand(s)| + |s.held| == |l.pool.available| + |l.pool.held|
  {
    QueueApart(s, l, size);
    EntriesApart(s, l, size);
    HandApart(s, l, size);
  }

  /** Main result: over every interleaving no slot has two owners, and free,
      in-hand, held and leaked slots add up to the pool. */
  lemma ConcurrentSafety(size: nat, steps: seq<(Worker, Move)>)
    ensures var s := After(Initial(size), steps);
            var l := RunOps(size, History(Initial(size), steps));
            SlotsApart(s, size) && |s.available| + |InHand(s)| + |s.held| + |l.leaked| == size
  {
    var ops := History(Initial(size), steps);
    Linearizable(size, steps);
    SlotsAccounted(size, ops);
    SlotsAddUp(size, ops);
    AbstractApart(After(Initial(size), steps), RunOps(size, ops), size);
  }

  // The two lock orders

  /** Each call waits for the lock the other one holds. */
  predicate Deadlocked(s: State) {
    s.availableLock.Owned? && s.assignmentsLock.Owned?
  }

  /** A lock owner can take its next step exactly when the state is not deadlocked. */
  lemma OwnersProgress(s: State)
    requires s.availableLock.Owned? || s.assignmentsLock.Owned?
    ensures !Deadlocked(s) <==>
            || (s.availableLock.Owned? && Enabled(s, s.availableLock.worker, EnterSlot))
            || (s.assignmentsLock.Owned? && Enabled(s, s.assignmentsLock.worker, PushSlot))
  {
  }

  /** A deadlock is for ever: no slot moves again and both locks stay taken. */
  lemma {:induction false} DeadlockIsForever(s: State, steps: seq<(Worker, Move)>)
    requires Deadlocked(s)
    ensures After(s, steps) == s.(workers := After(s, steps).workers)
  {
    if steps == [] {
    } else {
      DeadlockIsForever(s, steps[..|steps| - 1]);
    }
  }

  /** One task holds a slot; a second acquire pops just before the first task's
      release takes the other lock. */
  const CROSSING: seq<(Worker, Move)> := [
    (0, CallAcquire("a")), (0, PopSlot), (0, EnterSlot),
    (1, CallAcquire("b")), (1, PopSlot),
    (0, CallRelease("a")), (0, RemoveEntry)]

  lemma AfterMore(s: State, steps: seq<(Worker, Move)>, w: Worker, m: Move)
    ensures After(s, steps + [(w, m)]) == Next(After(s, steps), w, m)
  {
    assert (steps + [(w, m)])[..|steps|] == steps;
  }

  lemma OneWorker(workers: map<Worker, Control>, w: Worker, c: Control)
    ensures workers[w := c][w := Inside] == workers[w := Inside]
  {
  }

  /** Both calls of an acquire up to its pop, undisturbed. */
  lemma PopRuns(s: State, steps: seq<(Worker, Move)>, w: Worker, task: string)
    requires var t := After(s, steps); w !in t.workers && t.availableLock.Free? && t.available != []
    ensures var t := After(s, steps);
            After(s, steps + [(w, CallAcquire(task)), (w, PopSlot)]) ==
            t.(available := t.available[1..], availableLock := Owned(w, task, t.available[0]),
               workers := t.workers[w := Inside])
  {
    AfterMore(s, steps, w, CallAcquire(task));
    AfterMore(s, steps + [(w, CallAcquire(task))], w, PopSlot);
    assert steps + [(w, CallAcquire(task)), (w, PopSlot)] == steps + [(w, CallAcquire(task))] + [(w, PopSlot)];
    OneWorker(After(s, steps).workers, w, AcquireWaits(task));
  }

  lemma CrossingDeadlocks(size: nat)
    requires size >= 2
    ensures Deadlocked(After(Initial(size), CROSSING))
  {
    var s0 := Initial(size);
    var pop := [(0, CallAcquire("a")), (0, PopSlot)];
    PopRuns(s0, [], 0, "a");
    assert [] + pop == pop;
    var enter := pop + [(0, EnterSlot)];
    AfterMore(s0, pop, 0, EnterSlot);
    var s3 := After(s0, enter);
    assert s3.held == map["a" := 0] && |s3.available| == size - 1 && 0 !in s3.workers && 1 !in s3.workers;
    PopRuns(s0, enter, 1, "b");
    var crossed := enter + [(1, CallAcquire("b")), (1, PopSlot)];
    AfterMore(s0, crossed, 0, CallRelease("a"));
    AfterMore(s0, crossed + [(0, CallRelease("a"))], 0, RemoveEntry);
    assert CROSSING == crossed + [(0, CallRelease("a"))] + [(0, RemoveEntry)];
  }

  /** Exactly the pools with two slots or more can deadlock. */
  lemma DeadlockNeedsTwoSlots(size: nat)
    ensures (exists steps :: Deadlocked(After(Initial(size), steps))) <==> size >= 2
  {
    if size >= 2 {
      CrossingDeadlocks(size);
    }
    if steps :| Deadlocked(After(Initial(size), steps)) {
      ConcurrentSafety(size, steps);
      var s := After(Initial(size), steps);
      assert InHand(s)[0] in InHand(s) && InHand(s)[1] in InHand(s);
      assert InHand(s)[0] != InHand(s)[1];
    }
  }
}
