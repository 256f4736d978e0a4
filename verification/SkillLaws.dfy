/** Skill resolution told from places in the lists it is given. */
module SkillLaws {
  import opened Text
  import opened SkillResolution

  /** The first element that satisfies `p`. */
  predicate FirstAt<T>(xs: seq<T>, p: T -> bool, i: nat) {
    i < |xs| && p(xs[i]) && forall j | 0 <= j < i :: !p(xs[j])
  }

  lemma {:induction false} FindAt<T>(xs: seq<T>, p: T -> bool, i: nat)
    requires FirstAt(xs, p, i)
    ensures Find(xs, p) == Some(xs[i])
  {
    if i == 0 {
    } else {
      assert !p(xs[0]);
      assert forall j | 0 <= j < i - 1 :: xs[1..][j] == xs[j + 1];
      FindAt(xs[1..], p, i - 1);
    }
  }

  lemma {:induction false} FindPlace<T>(xs: seq<T>, p: T -> bool) returns (i: nat)
    requires Find(xs, p).Some?
    ensures FirstAt(xs, p, i)
  {
    if p(xs[0]) {
      i := 0;
    } else {
      var k := FindPlace(xs[1..], p);
      i := k + 1;
      assert forall j | 0 < j < i :: xs[j] == xs[1..][j - 1];
    }
  }

  // Levels one and two

  /** The override that counts for `id`: the first one that names it. */
  predicate NamesFirst(overrides: seq<Override>, id: string, i: nat) {
    i < |overrides| && overrides[i].taskId == Some(id) && forall j | 0 <= j < i :: overrides[j].taskId != Some(id)
  }

  predicate Listed(packs: seq<Pack>, id: string) {
    exists k :: 0 <= k < |packs| && packs[k].id == id
  }

  /** The first override for `id` names the pack, and it is listed, deprecated or not. */
  ghost predicate Takes(overrides: seq<Override>, id: Option<string>, packs: seq<Pack>, pack: string) {
    && id.Some? && Listed(packs, pack)
    && exists i: nat :: NamesFirst(overrides, id.value, i) && overrides[i].packId == pack
  }

  lemma ListedIsHas(packs: seq<Pack>, id: string)
    ensures Listed(packs, id) <==> Has(packs, id)
  {
    if Listed(packs, id) {
      var k :| 0 <= k < |packs| && packs[k].id == id;
      assert packs[k] in packs;
    }
  }

  lemma OverriddenIs(overrides: seq<Override>, id: Option<string>, packs: seq<Pack>, pack: string)
    ensures Overridden(overrides, id, packs) == Some(pack) <==> Takes(overrides, id, packs, pack)
  {
    if id.Some? {
      var p := (o: Override) => o.taskId == id;
      SameFind(overrides, (o: Override) => o.taskId == id, p);
      ListedIsHas(packs, pack);
      if Find(overrides, p).Some? {
        var i := FindPlace(overrides, p);
        FindAt(overrides, p, i);
        assert NamesFirst(overrides, id.value, i);
      }
      if Takes(overrides, id, packs, pack) {
        var i: nat :| NamesFirst(overrides, id.value, i) && overrides[i].packId == pack;
        FindAt(overrides, p, i);
      }
    }
  }

  /** The task's override comes first, then the node's, and each gives the pack
      that its first entry names. */
  lemma OverrideLevels(r: Request, available: seq<Pack>, pack: string)
    ensures var s := ResolveFull(r, available);
            && (s == Resolution(pack, TaskOverride) <==> Takes(r.taskOverrides, r.task, available, pack))
            && (s == Resolution(pack, NodeOverride) <==>
                Takes(r.nodeOverrides, r.node, available, pack)
                && forall q: string :: !Takes(r.taskOverrides, r.task, available, q))
  {
    forall q: string
      ensures Overridden(r.taskOverrides, r.task, available) == Some(q) <==>
              Takes(r.taskOverrides, r.task, available, q)
    {
      OverriddenIs(r.taskOverrides, r.task, available, q);
    }
    OverriddenIs(r.nodeOverrides, r.node, available, pack);
    var byTask := Overridden(r.taskOverrides, r.task, available);
    if byTask.Some? {
      assert Takes(r.taskOverrides, r.task, available, byTask.value);
    }
  }

  /** The rule of a phase is the first one listed for it. */
  lemma PhaseLaw(r: Request, p: Pack)
    ensures AllowedByPhase(r, p) <==>
            r.phase.Some? && exists i ::
              && 0 <= i < |r.restrictions| && r.restrictions[i].0 == r.phase.value && p.id in r.restrictions[i].1
              && forall j | 0 <= j < i :: r.restrictions[j].0 != r.phase.value
  {
    if r.phase.Some? {
      var q := (x: (string, seq<string>)) => x.0 == r.phase.value;
      SameFind(r.restrictions, (x: (string, seq<string>)) => x.0 == r.phase.value, q);
      forall i | 0 <= i < |r.restrictions| && FirstAt(r.restrictions, q, i)
        ensures Find(r.restrictions, q) == Some(r.restrictions[i])
      {
        FindAt(r.restrictions, q, i);
      }
      if Find(r.restrictions, q).Some? {
        var i := FindPlace(r.restrictions, q);
        assert FirstAt(r.restrictions, q, i);
      }
    }
  }

  // The shorter resolver

  /** Its five steps: the first override for the task that can be served, the first
      one for the kind whose pack is in use, the first pack in use that takes the
      kind, the first one for the role, and the first one in use. */
  lemma ShortLaw(task: Option<string>, kind: string, role: string, overrides: seq<Override>, available: seq<Pack>)
    ensures var s := ResolveSkill(task, kind, role, overrides, available);
            var served := (o: Override) => task.Some? && o.taskId == task && Listed(available, o.packId);
            var ruled := (o: Override) => o.taskId.None? && o.taskKind == Some(kind) && InUse(available, o.packId);
            var kinds := (p: Pack) => kind in p.kinds;
            var roles := (p: Pack) => p.role == role;
            var any := (p: Pack) => true;
            if Find(overrides, served).Some? then
              exists i: nat | FirstAt(overrides, served, i) :: s == Some(Resolution(overrides[i].packId, TaskOverride))
            else if Find(overrides, ruled).Some? then
              exists i: nat | FirstAt(overrides, ruled, i) :: s == Some(Resolution(overrides[i].packId, TaskKind))
            else if exists p <- available :: !p.deprecated && kinds(p) then
              s.Some? && s.value.level == TaskKind && FirstUsable(available, kinds, s.value.packId)
            else if exists p <- available :: !p.deprecated && roles(p) then
              s.Some? && s.value.level == RoleDefault && FirstUsable(available, roles, s.value.packId)
            else if exists p <- available :: !p.deprecated then
              s.Some? && s.value.level == GlobalFallback && FirstUsable(available, any, s.value.packId)
            else s == None
  {
    var served := (o: Override) => task.Some? && o.taskId == task && Listed(available, o.packId);
    var ruled := (o: Override) => o.taskId.None? && o.taskKind == Some(kind) && InUse(available, o.packId);
    ServedIs(task, overrides, available, served);
    RuledIs(kind, overrides, available, ruled);
    if Find(overrides, served).Some? {
      var i := FindPlace(overrides, served);
      FindAt(overrides, served, i);
    } else if Find(overrides, ruled).Some? {
      var i := FindPlace(overrides, ruled);
      FindAt(overrides, ruled, i);
    } else {
      PacksLaw(task, kind, role, overrides, available, served, ruled);
    }
  }

  predicate InUse(packs: seq<Pack>, id: string) {
    exists k :: 0 <= k < |packs| && packs[k].id == id && !packs[k].deprecated
  }

  lemma InUseIsActive(packs: seq<Pack>, id: string)
    ensures InUse(packs, id) <==> Has(Active(packs), id)
  {
    ActiveIsFilter(packs);
    if InUse(packs, id) {
      var k :| 0 <= k < |packs| && packs[k].id == id && !packs[k].deprecated;
      assert packs[k] in packs;
    }
    if Has(Active(packs), id) {
      var p :| p in Active(packs) && p.id == id;
      var k :| 0 <= k < |packs| && packs[k] == p;
    }
  }

  lemma ServedIs(task: Option<string>, overrides: seq<Override>, available: seq<Pack>, served: Override -> bool)
    requires forall o: Override :: served(o) == (task.Some? && o.taskId == task && Listed(available, o.packId))
    ensures Find(overrides, ServedForTask(task, available)) == Find(overrides, served)
  {
    forall o <- overrides ensures ServedForTask(task, available)(o) == served(o) {
      ListedIsHas(available, o.packId);
    }
    SameFind(overrides, ServedForTask(task, available), served);
  }

  lemma RuledIs(kind: string, overrides: seq<Override>, available: seq<Pack>, ruled: Override -> bool)
    requires forall o: Override ::
      ruled(o) == (o.taskId.None? && o.taskKind == Some(kind) && InUse(available, o.packId))
    ensures Find(overrides, (o: Override) =>
              o.taskId.None? && o.taskKind == Some(kind) && Has(Active(available), o.packId)) == Find(overrides, ruled)
  {
    var p := (o: Override) => o.taskId.None? && o.taskKind == Some(kind) && Has(Active(available), o.packId);
    forall o <- overrides ensures p(o) == ruled(o) {
      InUseIsActive(available, o.packId);
    }
    SameFind(overrides, p, ruled);
    SameFind(overrides, (o: Override) =>
      o.taskId.None? && o.taskKind == Some(kind) && Has(Active(available), o.packId), p);
  }

  lemma PacksLaw(task: Option<string>, kind: string, role: string, overrides: seq<Override>, available: seq<Pack>,
                 served: Override -> bool, ruled: Override -> bool)
    requires Find(overrides, ServedForTask(task, available)) == Find(overrides, served) == None
    requires Find(overrides, (o: Override) =>
               o.taskId.None? && o.taskKind == Some(kind) && Has(Active(available), o.packId))
             == Find(overrides, ruled) == None
    ensures var s := ResolveSkill(task, kind, role, overrides, available);
            var kinds := (p: Pack) => kind in p.kinds;
            var roles := (p: Pack) => p.role == role;
            var any := (p: Pack) => true;
            if exists p <- available :: !p.deprecated && kinds(p) then
              s.Some? && s.value.level == TaskKind && FirstUsable(available, kinds, s.value.packId)
            else if exists p <- available :: !p.deprecated && roles(p) then
              s.Some? && s.value.level == RoleDefault && FirstUsable(available, roles, s.value.packId)
            else if exists p <- available :: !p.deprecated then
              s.Some? && s.value.level == GlobalFallback && FirstUsable(available, any, s.value.packId)
            else s == None
  {
    var kinds := (p: Pack) => kind in p.kinds;
    var roles := (p: Pack) => p.role == role;
    var any := (p: Pack) => true;
    FindFirstUsable(available, kinds);
    FindFirstUsable(available, roles);
    FindFirstUsable(available, any);
    SameFind(Active(available), (p: Pack) => kind in p.kinds, kinds);
    SameFind(Active(available), (p: Pack) => p.role == role, roles);
  }

  /** The level strings of the two resolvers. */
  lemma LevelStrings()
    ensures [FullName(TaskOverride), FullName(NodeOverride), FullName(TaskKind), FullName(PhaseRestriction),
             FullName(RoleDefault), FullName(ProjectDefault), FullName(GlobalFallback), FullName(Escalation)]
         == ["task_override", "node_override", "task_kind", "phase_restriction", "role_default", "project_default",
             "global_fallback", "escalation"]
    ensures [ShortName(TaskOverride), ShortName(TaskKind), ShortName(RoleDefault), ShortName(GlobalFallback)]
         == ["override", "task_kind", "role", "fallback"]
  {
  }
}
