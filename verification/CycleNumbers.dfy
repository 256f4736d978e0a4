/** When a loop's cycles are numbered 1, 2, ..., n and the loop row says n. */
module CycleNumbers {
  import opened Text
  import opened ControlPlane
  import opened CommandSpec
  import opened TableChanges

  function CycleCount(cycles: seq<CycleRow>, loopId: nat): nat {
    if cycles == [] then 0
    else CycleCount(cycles[..|cycles| - 1], loopId) + if cycles[|cycles| - 1].loopId == loopId then 1 else 0
  }

  predicate HasLoop(loops: seq<LoopRow>, id: nat) {
    exists k :: 0 <= k < |loops| && loops[k].id == id
  }

  ghost predicate LoopsOrdered(loops: seq<LoopRow>, next: nat) {
    && (forall i :: 0 <= i < |loops| ==> loops[i].id < next)
    && (forall i, j :: 0 <= i < j < |loops| ==> loops[i].id < loops[j].id)
  }

  ghost predicate CyclesInSequence(loops: seq<LoopRow>, cycles: seq<CycleRow>) {
    forall k :: 0 <= k < |cycles| ==>
      HasLoop(loops, cycles[k].loopId) && cycles[k].index == CycleCount(cycles[..k], cycles[k].loopId) + 1
  }

  ghost predicate LoopsCountCycles(loops: seq<LoopRow>, cycles: seq<CycleRow>) {
    forall k :: 0 <= k < |loops| ==> loops[k].cycleIndex == CycleCount(cycles, loops[k].id)
  }

  ghost predicate InSequence(db: Db) {
    && LoopsOrdered(db.loops, db.next)
    && CyclesInSequence(db.loops, db.cycles)
    && LoopsCountCycles(db.loops, db.cycles)
  }

  /** A caller can check this beforehand: a cycle it opens by hand takes the
      next index of its loop, and the next-cycle command names a loop that
      exists and whose counter is not at the top of its range. */
  predicate AsksForNextIndex(db: Db, c: Command) {
    match c
    case CreateCycle(_, loopId, index, _) =>
      var l := Select(db.loops, LoopId, loopId);
      l.Some? ==> index == l.value.cycleIndex + 1
    case NextCycle(_, loopId, _, _, _) =>
      var l := Select(db.loops, LoopId, loopId);
      l.Some? && l.value.cycleIndex < 0x7FFF_FFFF
    case _ => true
  }

  lemma {:induction false} CountUnopened(loops: seq<LoopRow>, cycles: seq<CycleRow>, id: nat)
    requires forall k :: 0 <= k < |cycles| ==> HasLoop(loops, cycles[k].loopId)
    requires !HasLoop(loops, id)
    ensures CycleCount(cycles, id) == 0
  {
    if cycles == [] {
    } else {
      var rest := cycles[..|cycles| - 1];
      assert forall k :: 0 <= k < |rest| ==> rest[k] == cycles[k];
      CountUnopened(loops, rest, id);
      assert HasLoop(loops, cycles[|cycles| - 1].loopId);
    }
  }

  lemma SelectLoop(loops: seq<LoopRow>, k: nat)
    requires k < |loops| && forall i, j :: 0 <= i < j < |loops| ==> loops[i].id < loops[j].id
    ensures Select(loops, LoopId, loops[k].id) == Some(loops[k])
  {
    var r := Select(loops, LoopId, loops[k].id);
    assert loops[k] in loops && LoopId(loops[k]) == loops[k].id;
  }

  lemma OpenStaysInSequence(db: Db, next: Db, row: CycleRow, m: nat)
    requires InSequence(db) && next.next >= db.next
    requires next.cycles == db.cycles + [row] && next.loops == SetLoopIndex(db.loops, row.loopId, row.index)
    requires m < |db.loops| && db.loops[m].id == row.loopId && row.index == db.loops[m].cycleIndex + 1
    ensures InSequence(next)
  {
    assert next.cycles[..|db.cycles|] == db.cycles;
    forall k | 0 <= k < |next.cycles|
      ensures HasLoop(next.loops, next.cycles[k].loopId) &&
              next.cycles[k].index == CycleCount(next.cycles[..k], next.cycles[k].loopId) + 1
    {
      assert next.cycles[..k] == db.cycles[..k];
      if k < |db.cycles| {
        assert HasLoop(db.loops, db.cycles[k].loopId);
        var i :| 0 <= i < |db.loops| && db.loops[i].id == db.cycles[k].loopId;
        assert next.loops[i].id == db.cycles[k].loopId;
      } else {
        assert next.loops[m].id == row.loopId && db.cycles[..k] == db.cycles;
      }
    }
  }

  lemma OpenWasNext(db: Db, next: Db, row: CycleRow)
    requires InSequence(db) && InSequence(next)
    requires next.cycles == db.cycles + [row] && next.loops == SetLoopIndex(db.loops, row.loopId, row.index)
    ensures var l := Select(db.loops, LoopId, row.loopId); l.Some? && row.index == l.value.cycleIndex + 1
  {
    var n := |db.cycles|;
    assert next.cycles[..n] == db.cycles && next.cycles[n] == row;
    assert HasLoop(next.loops, row.loopId) && row.index == CycleCount(db.cycles, row.loopId) + 1;
    var k :| 0 <= k < |next.loops| && next.loops[k].id == row.loopId;
    SelectLoop(db.loops, k);
  }

  /** Opening a cycle keeps the numbering exactly when the loop exists and the
      index is one more than the loop's counter. */
  lemma OpenInSequence(db: Db, next: Db, row: CycleRow)
    requires InSequence(db) && next.next >= db.next
    requires next.cycles == db.cycles + [row] && next.loops == SetLoopIndex(db.loops, row.loopId, row.index)
    ensures InSequence(next) <==>
            var l := Select(db.loops, LoopId, row.loopId); l.Some? && row.index == l.value.cycleIndex + 1
  {
    var l := Select(db.loops, LoopId, row.loopId);
    if InSequence(next) {
      OpenWasNext(db, next, row);
    }
    if l.Some? && row.index == l.value.cycleIndex + 1 {
      var m :| 0 <= m < |db.loops| && db.loops[m] == l.value;
      OpenStaysInSequence(db, next, row, m);
    }
  }

  lemma NewLoopInSequence(db: Db, next: Db, row: LoopRow)
    requires InSequence(db) && next.next > db.next && next.cycles == db.cycles
    requires next.loops == db.loops + [row] && row.id == db.next && row.cycleIndex == 0
    ensures InSequence(next)
  {
    forall k | 0 <= k < |db.cycles| ensures HasLoop(next.loops, db.cycles[k].loopId) {
      assert HasLoop(db.loops, db.cycles[k].loopId);
      var i :| 0 <= i < |db.loops| && db.loops[i].id == db.cycles[k].loopId;
      assert next.loops[i].id == db.cycles[k].loopId;
    }
    CountUnopened(db.loops, db.cycles, row.id);
  }

  lemma {:induction false} MovedSameCount(a: seq<CycleRow>, b: seq<CycleRow>, loopId: nat)
    requires |a| == |b| && forall k :: 0 <= k < |a| ==> a[k].loopId == b[k].loopId
    ensures CycleCount(a, loopId) == CycleCount(b, loopId)
  {
    if a == [] {
    } else {
      MovedSameCount(a[..|a| - 1], b[..|b| - 1], loopId);
    }
  }

  lemma MoveInSequence(db: Db, next: Db)
    requires InSequence(db) && next.next >= db.next && next.loops == db.loops
    requires |next.cycles| == |db.cycles|
    requires forall k :: 0 <= k < |db.cycles| ==> next.cycles[k] == db.cycles[k].(phase := next.cycles[k].phase)
    ensures InSequence(next)
  {
    forall k | 0 <= k <= |db.cycles|, id: nat
      ensures CycleCount(next.cycles[..k], id) == CycleCount(db.cycles[..k], id)
    {
      MovedSameCount(next.cycles[..k], db.cycles[..k], id);
    }
    assert next.cycles[..|db.cycles|] == next.cycles && db.cycles[..|db.cycles|] == db.cycles;
  }

  lemma QuietInSequence(db: Db, next: Db, ch: Change, key: string)
    requires InSequence(db) && Changed(db, next, ch, key) && !ch.CycleOpened?
    ensures InSequence(next)
  {
    if ch.LoopAdded? {
      NewLoopInSequence(db, next, ch.loop);
    } else {
      MoveInSequence(db, next);
    }
  }

  lemma OpenerFindsLoop(db: Db, c: Command)
    requires ChangeOf(db, c).CycleOpened?
    ensures var row := ChangeOf(db, c).cycle;
            var l := Select(db.loops, LoopId, row.loopId);
            AsksForNextIndex(db, c) <==> l.Some? && row.index == l.value.cycleIndex + 1
  {
  }

  /** A step keeps every loop's cycles numbered 1..n exactly when its guards stop
      it from opening a cycle or it opens one under the next index. */
  lemma StepInSequence(db: Db, c: Command)
    requires InSequence(db) && IdsBelow(db)
    ensures InSequence(Step(db, c).db) <==> !ChangeOf(db, c).CycleOpened? || AsksForNextIndex(db, c)
  {
    var next, ch := Step(db, c).db, ChangeOf(db, c);
    StepChanges(db, c);
    if ch.CycleOpened? {
      OpenInSequence(db, next, ch.cycle);
      OpenerFindsLoop(db, c);
    } else {
      QuietInSequence(db, next, ch, KeyOf(c));
    }
  }

  ghost predicate AlwaysAsksForNextIndex(commands: seq<Command>) {
    forall i :: 0 <= i < |commands| ==> AsksForNextIndex(Run(EMPTY, commands[..i]), commands[i])
  }

  /** Main result: cycles stay numbered 1..n, and the loop row says n. */
  lemma {:induction false} RunInSequence(commands: seq<Command>)
    requires AlwaysAsksForNextIndex(commands)
    ensures InSequence(Run(EMPTY, commands))
  {
    if commands == [] {
    } else {
      var rest := commands[..|commands| - 1];
      forall i | 0 <= i < |rest| ensures AsksForNextIndex(Run(EMPTY, rest[..i]), rest[i]) {
        assert rest[..i] == commands[..i] && rest[i] == commands[i];
      }
      RunInSequence(rest);
      ReachableIds(rest);
      StepInSequence(Run(EMPTY, rest), commands[|rest|]);
    }
  }
}
