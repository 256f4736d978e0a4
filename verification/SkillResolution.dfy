/** Which skill pack a task gets. */
module SkillResolution {
  import opened Text

  datatype Pack = Pack(id: string, role: string, kinds: seq<string>, deprecated: bool)

  datatype Override = Override(taskId: Option<string>, taskKind: Option<string>, packId: string)

  datatype Level =
    | TaskOverride | NodeOverride | TaskKind | PhaseRestriction | RoleDefault | ProjectDefault | GlobalFallback
    | Escalation

  datatype Resolution = Resolution(packId: string, level: Level)

  datatype Request = Request(
    task: Option<string>, node: Option<string>, kind: string, role: string, phase: Option<string>,
    taskOverrides: seq<Override>, nodeOverrides: seq<Override>, restrictions: seq<(string, seq<string>)>,
    projectDefault: Option<string>, globalFallback: Option<string>)

  function Find<T>(xs: seq<T>, p: T -> bool): (r: Option<T>)
    ensures r.Some? ==> r.value in xs && p(r.value)
    ensures r.None? ==> forall x <- xs :: !p(x)
  {
    if xs == [] then None else if p(xs[0]) then Some(xs[0]) else Find(xs[1..], p)
  }

  predicate Has(packs: seq<Pack>, id: string) {
    exists p <- packs :: p.id == id
  }

  function Active(packs: seq<Pack>): (r: seq<Pack>)
    ensures forall p <- r :: p in packs && !p.deprecated
  {
    if packs == [] then []
    else if packs[0].deprecated then Active(packs[1..])
    else [packs[0]] + Active(packs[1..])
  }

  /** The pack of the first override for `id`, if that pack is available. */
  function Overridden(overrides: seq<Override>, id: Option<string>, packs: seq<Pack>): Option<string> {
    if id.None? then None
    else
      var found := Find(overrides, (o: Override) => o.taskId == id);
      if found.Some? && Has(packs, found.value.packId) then Some(found.value.packId) else None
  }

  function IdOf(p: Option<Pack>): Option<string> {
    if p.Some? then Some(p.value.id) else None
  }

  function Restricted(r: Request, active: seq<Pack>): Option<string> {
    if r.phase.None? then None
    else
      var rule := Find(r.restrictions, (x: (string, seq<string>)) => x.0 == r.phase.value);
      if rule.None? then None else IdOf(Find(active, (p: Pack) => p.id in rule.value.1))
  }

  function IfActive(id: Option<string>, active: seq<Pack>): Option<string> {
    if id.Some? && Has(active, id.value) then id else None
  }

  /** The eight levels, tried in order. */
  function ResolveFull(r: Request, available: seq<Pack>): Resolution {
    var byTask := Overridden(r.taskOverrides, r.task, available);
    if byTask.Some? then Resolution(byTask.value, TaskOverride)
    else
      var byNode := Overridden(r.nodeOverrides, r.node, available);
      if byNode.Some? then Resolution(byNode.value, NodeOverride)
      else ResolveActive(r, Active(available))
  }

  function ResolveActive(r: Request, active: seq<Pack>): Resolution {
    var byKind := Find(active, (p: Pack) => r.kind in p.kinds);
    if byKind.Some? then Resolution(byKind.value.id, TaskKind)
    else
      var byPhase := Restricted(r, active);
      if byPhase.Some? then Resolution(byPhase.value, PhaseRestriction)
      else
        var byRole := Find(active, (p: Pack) => p.role == r.role);
        if byRole.Some? then Resolution(byRole.value.id, RoleDefault)
        else if IfActive(r.projectDefault, active).Some? then Resolution(r.projectDefault.value, ProjectDefault)
        else if IfActive(r.globalFallback, active).Some? then Resolution(r.globalFallback.value, GlobalFallback)
        else Resolution("unresolved", Escalation)
  }

  predicate NoOverride(r: Request, packs: seq<Pack>) {
    Overridden(r.taskOverrides, r.task, packs).None? && Overridden(r.nodeOverrides, r.node, packs).None?
  }

  /** Some level below the overrides would take this pack. */
  predicate Serves(r: Request, p: Pack) {
    || r.kind in p.kinds || p.role == r.role
    || r.projectDefault == Some(p.id) || r.globalFallback == Some(p.id)
    || AllowedByPhase(r, p)
  }

  predicate AllowedByPhase(r: Request, p: Pack) {
    r.phase.Some? &&
    var rule := Find(r.restrictions, (x: (string, seq<string>)) => x.0 == r.phase.value);
    rule.Some? && p.id in rule.value.1
  }

  lemma {:induction false} ActiveIsFilter(packs: seq<Pack>)
    ensures forall p <- packs :: !p.deprecated ==> p in Active(packs)
  {
    if packs == [] {
    } else {
      ActiveIsFilter(packs[1..]);
      assert forall p <- packs :: p == packs[0] || p in packs[1..];
    }
  }

  /** The result is an available pack, below the overrides one that is not
      deprecated; it is the escalation exactly when nothing else applies. */
  lemma ResolvesToKnownPack(r: Request, available: seq<Pack>)
    ensures var s := ResolveFull(r, available);
            && (s.level != Escalation ==> Has(available, s.packId))
            && (!s.level.TaskOverride? && !s.level.NodeOverride? && !s.level.Escalation? ==>
                exists p <- available :: p.id == s.packId && !p.deprecated)
            && (s.level == Escalation <==>
                NoOverride(r, available) && forall p <- available :: !p.deprecated ==> !Serves(r, p))
  {
    ActiveIsFilter(available);
  }

  /** The first pack of the list that is not deprecated and satisfies `p`. */
  ghost predicate FirstUsable(packs: seq<Pack>, p: Pack -> bool, id: string) {
    exists i | 0 <= i < |packs| ::
      && packs[i].id == id && !packs[i].deprecated && p(packs[i])
      && forall j | 0 <= j < i :: !packs[j].deprecated ==> !p(packs[j])
  }

  lemma FindSkips(packs: seq<Pack>, p: Pack -> bool)
    requires packs != [] && (packs[0].deprecated || !p(packs[0]))
    ensures Find(Active(packs), p) == Find(Active(packs[1..]), p)
  {
    if !packs[0].deprecated {
      assert Active(packs)[1..] == Active(packs[1..]);
    }
  }

  lemma {:induction false} FirstUsableAt(packs: seq<Pack>, p: Pack -> bool) returns (i: nat)
    requires Find(Active(packs), p).Some?
    ensures i < |packs| && packs[i] == Find(Active(packs), p).value && !packs[i].deprecated && p(packs[i])
    ensures forall j | 0 <= j < i :: !packs[j].deprecated ==> !p(packs[j])
  {
    if !packs[0].deprecated && p(packs[0]) {
      i := 0;
    } else {
      FindSkips(packs, p);
      var k := FirstUsableAt(packs[1..], p);
      i := k + 1;
      assert forall j | 0 < j < i :: packs[j] == packs[1..][j - 1];
    }
  }

  lemma FindFirstUsable(packs: seq<Pack>, p: Pack -> bool)
    ensures var found := Find(Active(packs), p);
            && (found.Some? ==> FirstUsable(packs, p, found.value.id))
            && (found.Some? <==> exists q <- packs :: !q.deprecated && p(q))
  {
    ActiveIsFilter(packs);
    if Find(Active(packs), p).Some? {
      var _ := FirstUsableAt(packs, p);
    }
  }

  /** Levels three to five, each in terms of the packs as listed: a level is
      reached exactly when none above it has a usable pack, and takes the first
      one listed. */
  lemma FirstHit(r: Request, available: seq<Pack>)
    requires NoOverride(r, available)
    ensures var s := ResolveFull(r, available);
            var kind := (p: Pack) => r.kind in p.kinds;
            var phase := (p: Pack) => AllowedByPhase(r, p);
            var role := (p: Pack) => p.role == r.role;
            && (s.level == TaskKind <==> exists p <- available :: !p.deprecated && kind(p))
            && (s.level == PhaseRestriction <==>
                (exists p <- available :: !p.deprecated && phase(p))
                && !exists p <- available :: !p.deprecated && kind(p))
            && (s.level == RoleDefault <==>
                (exists p <- available :: !p.deprecated && role(p))
                && !exists p <- available :: !p.deprecated && (kind(p) || phase(p)))
            && (s.level == TaskKind ==> FirstUsable(available, kind, s.packId))
            && (s.level == PhaseRestriction ==> FirstUsable(available, phase, s.packId))
            && (s.level == RoleDefault ==> FirstUsable(available, role, s.packId))
  {
    var kind := (p: Pack) => r.kind in p.kinds;
    var phase := (p: Pack) => AllowedByPhase(r, p);
    var role := (p: Pack) => p.role == r.role;
    FindFirstUsable(available, kind);
    FindFirstUsable(available, phase);
    FindFirstUsable(available, role);
    RestrictedIsFind(r, Active(available));
    SameFind(Active(available), (p: Pack) => r.kind in p.kinds, kind);
    SameFind(Active(available), (p: Pack) => p.role == r.role, role);
  }

  /** The two defaults come last, in this order, and only while not deprecated. */
  lemma DefaultsLast(r: Request, available: seq<Pack>)
    requires NoOverride(r, available)
    ensures var s := ResolveFull(r, available);
            var above := exists p <- available ::
              !p.deprecated && (r.kind in p.kinds || AllowedByPhase(r, p) || p.role == r.role);
            var project := exists p <- available :: !p.deprecated && r.projectDefault == Some(p.id);
            var global := exists p <- available :: !p.deprecated && r.globalFallback == Some(p.id);
            && (s.level == ProjectDefault <==> !above && project)
            && (s.level == GlobalFallback <==> !above && !project && global)
            && (s.level == ProjectDefault ==> r.projectDefault == Some(s.packId))
            && (s.level == GlobalFallback ==> r.globalFallback == Some(s.packId))
  {
    FirstHit(r, available);
    ActiveIsFilter(available);
  }

  lemma {:induction false} SameFind<T>(xs: seq<T>, p: T -> bool, q: T -> bool)
    requires forall x <- xs :: p(x) == q(x)
    ensures Find(xs, p) == Find(xs, q)
  {
    if xs == [] {
    } else {
      SameFind(xs[1..], p, q);
    }
  }

  lemma RestrictedIsFind(r: Request, active: seq<Pack>)
    ensures Restricted(r, active) == IdOf(Find(active, (p: Pack) => AllowedByPhase(r, p)))
  {
    var phase := (p: Pack) => AllowedByPhase(r, p);
    if r.phase.Some? {
      var rule := Find(r.restrictions, (x: (string, seq<string>)) => x.0 == r.phase.value);
      if rule.Some? {
        SameFind(active, (p: Pack) => p.id in rule.value.1, phase);
      }
    }
  }

  /** Deprecated packs may be put in, taken out or moved: the active list, and
      with it the result, stays the same. */
  lemma {:induction false} ActiveSplit(a: seq<Pack>, b: seq<Pack>)
    ensures Active(a + b) == Active(a) + Active(b)
  {
    if a == [] {
      assert a + b == b;
    } else {
      assert (a + b)[1..] == a[1..] + b;
      ActiveSplit(a[1..], b);
    }
  }

  lemma ActiveWithout(a: seq<Pack>, p: Pack, b: seq<Pack>)
    requires p.deprecated
    ensures Active(a + [p] + b) == Active(a + b)
  {
    ActiveSplit(a + [p], b);
    ActiveSplit(a, [p]);
    ActiveSplit(a, b);
    assert Active([p]) == [] by {
      assert [p][1..] == [];
    }
    assert Active(a) + [] == Active(a);
  }

  /** An override that does not fire does not fire on fewer packs either. */
  lemma NoOverrideWithout(r: Request, a: seq<Pack>, p: Pack, b: seq<Pack>)
    requires NoOverride(r, a + [p] + b)
    ensures NoOverride(r, a + b)
  {
    forall id: string | Has(a + b, id) ensures Has(a + [p] + b, id) {
      var q :| q in a + b && q.id == id;
      assert q in a + [p] + b;
    }
  }

  lemma DeprecatedIsInvisible(r: Request, a: seq<Pack>, p: Pack, b: seq<Pack>)
    requires p.deprecated && NoOverride(r, a + [p] + b)
    ensures ResolveFull(r, a + [p] + b) == ResolveFull(r, a + b)
  {
    ActiveWithout(a, p, b);
    NoOverrideWithout(r, a, p, b);
    SkipsOverrides(r, a + [p] + b);
    SkipsOverrides(r, a + b);
  }

  lemma SkipsOverrides(r: Request, packs: seq<Pack>)
    requires NoOverride(r, packs)
    ensures ResolveFull(r, packs) == ResolveActive(r, Active(packs))
  { }

  // The shorter resolver

  function ForTask(task: Option<string>): Override -> bool {
    (o: Override) => task.Some? && o.taskId == task
  }

  /** Unlike the full resolver, takes the first override that can be served. */
  function ServedForTask(task: Option<string>, packs: seq<Pack>): Override -> bool {
    (o: Override) => task.Some? && o.taskId == task && Has(packs, o.packId)
  }

  function ResolveSkill(task: Option<string>, kind: string, role: string, overrides: seq<Override>,
                        available: seq<Pack>): (s: Option<Resolution>)
    ensures s.Some? ==> var l := s.value.level; l.TaskOverride? || l.TaskKind? || l.RoleDefault? || l.GlobalFallback?
  {
    var byTask := Find(overrides, ServedForTask(task, available));
    if byTask.Some? then Some(Resolution(byTask.value.packId, TaskOverride))
    else ResolveSkillActive(kind, role, overrides, Active(available))
  }

  function ResolveSkillActive(kind: string, role: string, overrides: seq<Override>, active: seq<Pack>)
    : Option<Resolution>
  {
    var rule := Find(overrides, (o: Override) => o.taskId.None? && o.taskKind == Some(kind) && Has(active, o.packId));
    if rule.Some? then Some(Resolution(rule.value.packId, TaskKind))
    else
      var byKind := Find(active, (p: Pack) => kind in p.kinds);
      if byKind.Some? then Some(Resolution(byKind.value.id, TaskKind))
      else
        var byRole := Find(active, (p: Pack) => p.role == role);
        if byRole.Some? then Some(Resolution(byRole.value.id, RoleDefault))
        else if active == [] then None
        else Some(Resolution(active[0].id, GlobalFallback))
  }

  /** The first override for the task names a missing pack, but another does not. */
  predicate Stale(task: Option<string>, overrides: seq<Override>, available: seq<Pack>) {
    var first := Find(overrides, ForTask(task));
    && first.Some? && !Has(available, first.value.packId)
    && exists o <- overrides :: o.taskId == task && Has(available, o.packId)
  }

  /** A request the shorter resolver can express: overrides by task only. */
  predicate Plain(r: Request) {
    && r.node.None? && r.phase.None? && r.projectDefault.None? && r.globalFallback.None?
    && forall o <- r.taskOverrides :: o.taskId.Some?
  }

  lemma {:induction false} FirstServed(task: Option<string>, overrides: seq<Override>, packs: seq<Pack>)
    requires !Stale(task, overrides, packs)
    ensures var served := Find(overrides, ServedForTask(task, packs));
            (if served.Some? then Some(served.value.packId) else None) == Overridden(overrides, task, packs)
  {
    if task.Some? {
      SameFind(overrides, ForTask(task), (o: Override) => o.taskId == task);
      var first := Find(overrides, ForTask(task));
      if first.Some? && Has(packs, first.value.packId) {
        FirstOfBoth(overrides, ForTask(task), ServedForTask(task, packs));
      }
    }
  }

  lemma {:induction false} FirstOfBoth<T>(xs: seq<T>, p: T -> bool, q: T -> bool)
    requires forall x <- xs :: q(x) ==> p(x)
    requires Find(xs, p).Some? && q(Find(xs, p).value)
    ensures Find(xs, q) == Find(xs, p)
  {
    if !p(xs[0]) {
      assert xs[0] in xs;
      FirstOfBoth(xs[1..], p, q);
    }
  }

  lemma StaleOverride(r: Request, available: seq<Pack>)
    requires Stale(r.task, r.taskOverrides, available) && r.task.Some?
    ensures Overridden(r.taskOverrides, r.task, available).None?
    ensures Find(r.taskOverrides, ServedForTask(r.task, available)).Some?
  {
    SameFind(r.taskOverrides, ForTask(r.task), (o: Override) => o.taskId == r.task);
  }

  lemma ActiveLevelsAgree(r: Request, active: seq<Pack>)
    requires Plain(r)
    ensures var full := ResolveActive(r, active);
            ResolveSkillActive(r.kind, r.role, r.taskOverrides, active) ==
            if full.level != Escalation then Some(full)
            else if active == [] then None else Some(Resolution(active[0].id, GlobalFallback))
  {
    SameFind(active, (p: Pack) => r.kind in p.kinds, (p: Pack) => r.kind in p.kinds);
    SameFind(active, (p: Pack) => p.role == r.role, (p: Pack) => p.role == r.role);
  }

  /** The level as the full resolver writes it. */
  function FullName(l: Level): string {
    match l
    case TaskOverride => "task_override"
    case NodeOverride => "node_override"
    case TaskKind => "task_kind"
    case PhaseRestriction => "phase_restriction"
    case RoleDefault => "role_default"
    case ProjectDefault => "project_default"
    case GlobalFallback => "global_fallback"
    case Escalation => "escalation"
  }

  /** The level as the short resolver writes it, for the four it has. */
  function ShortName(l: Level): string
    requires l.TaskOverride? || l.TaskKind? || l.RoleDefault? || l.GlobalFallback?
  {
    match l
    case TaskOverride => "override"
    case TaskKind => "task_kind"
    case RoleDefault => "role"
    case GlobalFallback => "fallback"
  }

  lemma NamesDiffer(l: Level)
    requires l.TaskOverride? || l.TaskKind? || l.RoleDefault? || l.GlobalFallback?
    ensures FullName(l) == ShortName(l) <==> l.TaskKind?
  {
    assert |FullName(TaskOverride)| != |ShortName(TaskOverride)|;
    assert |FullName(RoleDefault)| != |ShortName(RoleDefault)|;
    assert |FullName(GlobalFallback)| != |ShortName(GlobalFallback)|;
  }

  /** On a request both can express, the two resolvers give the same pack at the
      same level exactly when the full one finds a pack and the task has no stale
      override; the level is then written alike for a task kind only. */
  lemma ResolversAgree(r: Request, available: seq<Pack>)
    requires Plain(r)
    ensures var full := ResolveFull(r, available);
            var short := ResolveSkill(r.task, r.kind, r.role, r.taskOverrides, available);
            && (short == Some(full) <==> full.level != Escalation && !Stale(r.task, r.taskOverrides, available))
            && (short.Some? ==>
                (FullName(short.value.level) == ShortName(short.value.level) <==> short.value.level.TaskKind?))
  {
    ActiveLevelsAgree(r, Active(available));
    if Stale(r.task, r.taskOverrides, available) {
      StaleOverride(r, available);
    } else {
      FirstServed(r.task, r.taskOverrides, available);
    }
    var short := ResolveSkill(r.task, r.kind, r.role, r.taskOverrides, available);
    if short.Some? {
      NamesDiffer(short.value.level);
    }
  }

  const REQUEST := Request(Some("t"), None, "kind", "role", None,
                           [Override(Some("t"), None, "gone"), Override(Some("t"), None, "here")],
                           [], [], None, None)
  const HERE := Pack("here", "other role", [], false)

  /** The first override for the task names a pack that is gone: the short
      resolver takes the second one, the full one escalates. */
  lemma ResolversDisagree()
    ensures ResolveSkill(Some("t"), "kind", "role", REQUEST.taskOverrides, [HERE])
            == Some(Resolution("here", TaskOverride))
    ensures ResolveFull(REQUEST, [HERE]) == Resolution("unresolved", Escalation)
  {
    var gone, here := REQUEST.taskOverrides[0], REQUEST.taskOverrides[1];
    assert !Has([HERE], "gone") && Has([HERE], "here") by {
      assert [HERE][0] in [HERE];
      assert "gone"[0] != "here"[0];
    }
    assert Active([HERE]) == [HERE];
    assert REQUEST.taskOverrides[1..] == [here];
    assert HERE.role[0] != REQUEST.role[0];
  }
}
