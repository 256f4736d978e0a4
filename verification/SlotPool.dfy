/** The worktree slot pool, one operation at a time. */
module SlotPool {

  /** Slots are numbered as `pool-slot-{i:04}` numbers them. */
  datatype Pool = Pool(available: seq<nat>, held: map<string, nat>)

  datatype Acquired = Slot(slot: nat) | PoolExhausted

  function Acquire(p: Pool, task: string): (Pool, Acquired) {
    if p.available == [] then (p, PoolExhausted)
    else (Pool(p.available[1..], p.held[task := p.available[0]]), Slot(p.available[0]))
  }

  function Release(p: Pool, task: string): Pool {
    if task in p.held then Pool(p.available + [p.held[task]], p.held - {task}) else p
  }

  function Slots(size: nat): (r: seq<nat>)
    ensures |r| == size && forall i | 0 <= i < size :: r[i] == i
  {
    seq(size, i => i)
  }

  class WorktreePool {
    const size: nat
    var available: seq<nat>
    var held: map<string, nat>

    ghost function Model(): Pool
      reads this
    {
      Pool(available, held)
    }

    constructor (size: nat)
      ensures this.size == size && Model() == Pool(Slots(size), map[])
    {
      this.size := size;
      available := [];
      held := map[];
      new;
      for i := 0 to size
        invariant available == Slots(i) && held == map[]
      {
        available := available + [i];
      }
    }

    method AcquireSlot(task: string) returns (r: Acquired)
      modifies this
      ensures (Model(), r) == Acquire(old(Model()), task)
    {
      if available == [] {
        return PoolExhausted;
      }
      var slot := available[0];
      available := available[1..];
      held := held[task := slot];
      return Slot(slot);
    }

    method ReleaseSlot(task: string)
      modifies this
      ensures Model() == Release(old(Model()), task)
    {
      if task in held {
        var slot := held[task];
        held := held - {task};
        available := available + [slot];
      }
    }
  }

  // Runs

  datatype Op = AcquireOp(task: string) | ReleaseOp(task: string)

  /** The pool with its history: slots handed out, slots given back, and slots
      whose entry a second acquire by the same task has overwritten. */
  datatype Ledger = Ledger(pool: Pool, issued: seq<nat>, returned: seq<nat>, leaked: set<nat>)

  function Start(size: nat): Ledger {
    Ledger(Pool(Slots(size), map[]), [], [], {})
  }

  function Apply(l: Ledger, op: Op): Ledger {
    match op
    case AcquireOp(task) =>
      var (p, r) := Acquire(l.pool, task);
      if r.PoolExhausted? then l
      else
        Ledger(p, l.issued + [r.slot], l.returned,
               if task in l.pool.held then l.leaked + {l.pool.held[task]} else l.leaked)
    case ReleaseOp(task) =>
      Ledger(Release(l.pool, task), l.issued,
             if task in l.pool.held then l.returned + [l.pool.held[task]] else l.returned, l.leaked)
  }

  function RunOps(size: nat, ops: seq<Op>): Ledger {
    if ops == [] then Start(size) else Apply(RunOps(size, ops[..|ops| - 1]), ops[|ops| - 1])
  }

  /** A slot is in exactly one place: available once, held by one task, or leaked. */
  ghost predicate Accounted(l: Ledger, size: nat) {
    var available, held := l.pool.available, l.pool.held;
    && (forall i, j :: 0 <= i < j < |available| ==> available[i] != available[j])
    && (forall t, u :: t in held && u in held && t != u ==> held[t] != held[u])
    && (forall t <- held :: held[t] !in available && held[t] !in l.leaked)
    && (forall s <- available :: s !in l.leaked)
    && (forall s: nat :: s < size <==> s in available || s in held.Values || s in l.leaked)
  }

  lemma ApplyAccounted(l: Ledger, op: Op, size: nat)
    requires Accounted(l, size)
    ensures Accounted(Apply(l, op), size)
  {
    match op
    case AcquireOp(task) => AcquireAccounted(l, task, size);
    case ReleaseOp(task) => ReleaseAccounted(l, task, size);
  }

  lemma AcquireAccounted(l: Ledger, task: string, size: nat)
    requires Accounted(l, size)
    ensures Accounted(Apply(l, AcquireOp(task)), size)
  {
    if l.pool.available != [] {
      var slot, next := l.pool.available[0], Apply(l, AcquireOp(task));
      assert l.pool.available == [slot] + next.pool.available;
      assert slot in l.pool.available;
      forall s: nat
        ensures s < size <==> s in next.pool.available || s in next.pool.held.Values || s in next.leaked
      {
        assert next.pool.held[task] == slot;
        if s in l.pool.held.Values {
          var t :| t in l.pool.held && l.pool.held[t] == s;
          assert t != task ==> next.pool.held[t] == s;
        }
        if s in next.pool.held.Values {
          var t :| t in next.pool.held && next.pool.held[t] == s;
          assert t != task ==> l.pool.held[t] == s;
        }
      }
    }
  }

  lemma ReleaseAccounted(l: Ledger, task: string, size: nat)
    requires Accounted(l, size)
    ensures Accounted(Apply(l, ReleaseOp(task)), size)
  {
    if task in l.pool.held {
      var slot, next := l.pool.held[task], Apply(l, ReleaseOp(task));
      assert next.pool.available[|l.pool.available|] == slot;
      forall s: nat
        ensures s < size <==> s in next.pool.available || s in next.pool.held.Values || s in next.leaked
      {
        assert s in next.pool.available <==> s in l.pool.available || s == slot;
        assert slot in l.pool.held.Values;
        if s in l.pool.held.Values {
          var t :| t in l.pool.held && l.pool.held[t] == s;
          assert t != task ==> next.pool.held[t] == s;
        }
        if s in next.pool.held.Values {
          var t :| t in next.pool.held && next.pool.held[t] == s;
          assert l.pool.held[t] == s;
        }
      }
    }
  }

  lemma StartAccounted(size: nat)
    ensures Accounted(Start(size), size)
  {
    assert Start(size).pool.held.Values == {};
    forall s: nat | s < size ensures s in Slots(size) {
      assert Slots(size)[s] == s;
    }
  }

  /** Main result: over every run no slot is in two places. */
  lemma {:induction false} SlotsAccounted(size: nat, ops: seq<Op>)
    ensures Accounted(RunOps(size, ops), size)
  {
    if ops == [] {
      StartAccounted(size);
    } else {
      SlotsAccounted(size, ops[..|ops| - 1]);
      ApplyAccounted(RunOps(size, ops[..|ops| - 1]), ops[|ops| - 1], size);
    }
  }

  /** Slots leave the queue in the order they entered it. */
  lemma {:induction false} FirstInFirstOut(size: nat, ops: seq<Op>)
    ensures var l := RunOps(size, ops);
            Slots(size) + l.returned == l.issued + l.pool.available
  {
    if ops == [] {
    } else {
      var rest, op := ops[..|ops| - 1], ops[|ops| - 1];
      FirstInFirstOut(size, rest);
      var l := RunOps(size, rest);
      match op
      case AcquireOp(task) =>
        if l.pool.available != [] {
          var slot, left := l.pool.available[0], l.pool.available[1..];
          assert l.issued + l.pool.available == (l.issued + [slot]) + left;
        }
      case ReleaseOp(task) =>
        if task in l.pool.held {
          var back := [l.pool.held[task]];
          assert Slots(size) + (l.returned + back) == (l.issued + l.pool.available) + back
              == l.issued + (l.pool.available + back);
        }
    }
  }

  // Nothing leaks unless a task acquires twice

  /** The `i`th operation is an acquire that succeeds for a task holding a slot. */
  predicate TwiceAt(size: nat, ops: seq<Op>, i: nat)
    requires i < |ops|
  {
    var before := RunOps(size, ops[..i]).pool;
    ops[i].AcquireOp? && ops[i].task in before.held && before.available != []
  }

  predicate AcquiresTwice(size: nat, ops: seq<Op>) {
    exists i :: 0 <= i < |ops| && TwiceAt(size, ops, i)
  }

  /** Slots leak exactly when some acquire succeeds for a task that holds one. */
  lemma {:induction false} LeakIffAcquiresTwice(size: nat, ops: seq<Op>)
    ensures RunOps(size, ops).leaked != {} <==> AcquiresTwice(size, ops)
  {
    if ops == [] {
    } else {
      var n := |ops| - 1;
      var rest, l := ops[..n], RunOps(size, ops[..n]);
      LeakIffAcquiresTwice(size, rest);
      assert forall i :: 0 <= i < n ==> rest[..i] == ops[..i];
      assert forall i :: 0 <= i < n ==> (TwiceAt(size, rest, i) <==> TwiceAt(size, ops, i));
      assert TwiceAt(size, ops, n) ==> l.pool.held[ops[n].task] in RunOps(size, ops).leaked;
    }
  }

  function SetOf(s: seq<nat>): set<nat> {
    set x | x in s
  }

  lemma {:induction false} DistinctSize(s: seq<nat>)
    requires forall i, j :: 0 <= i < j < |s| ==> s[i] != s[j]
    ensures |SetOf(s)| == |s|
  {
    if s == [] {
    } else {
      DistinctSize(s[1..]);
      assert SetOf(s) == {s[0]} + SetOf(s[1..]);
    }
  }

  lemma {:induction false} InjectiveSize(m: map<string, nat>)
    requires forall t, u :: t in m && u in m && t != u ==> m[t] != m[u]
    ensures |m.Values| == |m|
    decreases |m|
  {
    if m.Keys != {} {
      var t :| t in m;
      var rest := m - {t};
      InjectiveSize(rest);
      assert m.Values == {m[t]} + rest.Values by {
        forall v <- m.Values ensures v in {m[t]} + rest.Values {
          var u :| u in m && m[u] == v;
          assert u != t ==> rest[u] == v;
        }
      }
      assert m.Keys == {t} + rest.Keys;
      assert |m| == |m.Keys| && |rest| == |rest.Keys|;
    } else {
      assert m == map[];
    }
  }

  /** Free and held slots add up to the pool, less one for every leak. */
  lemma SlotsAddUp(size: nat, ops: seq<Op>)
    ensures var l := RunOps(size, ops);
            |l.pool.available| + |l.pool.held| + |l.leaked| == size
  {
    SlotsAccounted(size, ops);
    var l := RunOps(size, ops);
    DistinctSize(l.pool.available);
    InjectiveSize(l.pool.held);
    DistinctSize(Slots(size));
    var a, b, c := SetOf(l.pool.available), l.pool.held.Values, l.leaked;
    EverySlotPlaced(size, l);
    assert SetOf(Slots(size)) == (a + b) + c;
    assert |a + b| == |a| + |b| && |(a + b) + c| == |a + b| + |c|;
  }

  lemma EverySlotPlaced(size: nat, l: Ledger)
    requires Accounted(l, size)
    ensures var a, b, c := SetOf(l.pool.available), l.pool.held.Values, l.leaked;
            SetOf(Slots(size)) == (a + b) + c && a !! b && (a + b) !! c
  {
    var a, b, c := SetOf(l.pool.available), l.pool.held.Values, l.leaked;
    forall s: nat ensures s in SetOf(Slots(size)) <==> s in (a + b) + c {
      assert s < size ==> Slots(size)[s] == s;
    }
  }

  /** A task that acquires twice from a pool of two leaks its first slot. */
  lemma SecondAcquireLeaks()
    ensures RunOps(2, [AcquireOp("a"), AcquireOp("a")]).leaked == {0}
  {
    var ops := [AcquireOp("a"), AcquireOp("a")];
    assert ops[..1] == [AcquireOp("a")] && ops[..1][..0] == [];
    assert RunOps(2, []) == Start(2) && Slots(2) == [0, 1];
    assert RunOps(2, ops[..1]) == Ledger(Pool([1], map["a" := 0]), [0], [], {});
  }
}
