/** Choosing an adapter, with the health records that fallback reads. */
module AdapterRegistry {
  import opened Text

  datatype Health = Healthy | Degraded | Unhealthy | Unknown

  datatype Adapter = Adapter(name: string, kind: string)

  datatype Capability = Capability(adapterId: string, health: Health)

  // Lookups over registration order

  function FindAdapter(adapters: seq<Adapter>, name: string): (r: Option<Adapter>)
    ensures r.Some? ==> r.value in adapters && r.value.name == name
    ensures r.None? ==> forall a <- adapters :: a.name != name
  {
    if adapters == [] then None
    else if adapters[0].name == name then Some(adapters[0])
    else FindAdapter(adapters[1..], name)
  }

  function FindHealth(records: seq<Capability>, name: string): Option<Health> {
    if records == [] then None
    else if records[0].adapterId == name then Some(records[0].health)
    else FindHealth(records[1..], name)
  }

  /** No record counts as healthy. */
  predicate Usable(records: seq<Capability>, name: string) {
    FindHealth(records, name) != Some(Unhealthy)
  }

  /** The preferred adapter is registered, recorded, and not marked unhealthy. */
  predicate PreferredUsable(adapters: seq<Adapter>, records: seq<Capability>, preferred: Option<string>) {
    && preferred.Some? && Named(adapters, preferred.value)
    && FindHealth(records, preferred.value).Some? && Usable(records, preferred.value)
  }

  function First<T>(xs: seq<T>): Option<T> {
    if xs == [] then None else Some(xs[0])
  }

  predicate Named(adapters: seq<Adapter>, name: string) {
    exists a <- adapters :: a.name == name
  }

  /** The first registered adapter of each name, in registration order. */
  function Distinct(adapters: seq<Adapter>): seq<Adapter> {
    if adapters == [] then []
    else
      var rest := Distinct(adapters[..|adapters| - 1]);
      var last := adapters[|adapters| - 1];
      if Named(rest, last.name) then rest else rest + [last]
  }

  function Without(adapters: seq<Adapter>, name: string): seq<Adapter> {
    if adapters == [] then []
    else
      var rest := Without(adapters[..|adapters| - 1], name);
      var last := adapters[|adapters| - 1];
      if last.name == name then rest else rest + [last]
  }

  function Preferred(adapters: seq<Adapter>, preferred: Option<string>): seq<Adapter> {
    if preferred.None? then []
    else
      var found := FindAdapter(adapters, preferred.value);
      if found.Some? then [found.value] else []
  }

  /** The preferred adapter first if it is registered, then the others. */
  function Chain(adapters: seq<Adapter>, preferred: Option<string>): seq<Adapter> {
    var head := Preferred(adapters, preferred);
    if head == [] then Distinct(adapters) else head + Without(Distinct(adapters), head[0].name)
  }

  class Registry {
    var adapters: seq<Adapter>
    var capabilities: seq<Capability>

    constructor ()
      ensures adapters == [] && capabilities == []
    {
      adapters, capabilities := [], [];
    }

    method Register(adapter: Adapter)
      modifies this
      ensures adapters == old(adapters) + [adapter]
      ensures capabilities == old(capabilities) + [Capability(adapter.name, Unknown)]
    {
      capabilities := capabilities + [Capability(adapter.name, Unknown)];
      adapters := adapters + [adapter];
    }

    /** Only the first record of that adapter changes, and only that one is read. */
    method UpdateHealth(name: string, health: Health)
      modifies this`capabilities
      ensures |capabilities| == |old(capabilities)|
      ensures forall n: string ::
        FindHealth(capabilities, n) ==
        if n == name && FindHealth(old(capabilities), n).Some? then Some(health) else FindHealth(old(capabilities), n)
    {
      var i := 0;
      while i < |capabilities| && capabilities[i].adapterId != name
        invariant 0 <= i <= |capabilities|
        invariant forall k | 0 <= k < i :: capabilities[k].adapterId != name
      {
        i := i + 1;
      }
      if i < |capabilities| {
        forall n: string
          ensures FindHealth(capabilities[i := Capability(name, health)], n) ==
                  if n == name && FindHealth(capabilities, n).Some? then Some(health) else FindHealth(capabilities, n)
        {
          FirstRecordChanged(capabilities, i, health, n);
        }
        capabilities := capabilities[i := Capability(name, health)];
      } else {
        NoRecord(capabilities, name);
      }
    }

    method Get(name: string) returns (r: Option<Adapter>)
      ensures r == FindAdapter(adapters, name)
    {
      r := FindAdapter(adapters, name);
    }

    method Select(preferred: Option<string>) returns (r: Option<Adapter>)
      ensures r == First(Chain(adapters, preferred))
    {
      if preferred.Some? {
        var found := Get(preferred.value);
        if found.Some? {
          return found;
        }
      }
      DistinctFirst(adapters);
      return First(adapters);
    }

    /** None only from an empty registry; an adapter marked unhealthy only when
        every registered one is; the usable preferred one, else the first usable. */
    method SelectWithFallback(preferred: Option<string>) returns (r: Option<Adapter>)
      ensures r.None? <==> adapters == []
      ensures r.Some? ==> r.value in adapters
      ensures r.Some? && !Usable(capabilities, r.value.name) ==> forall a <- adapters :: !Usable(capabilities, a.name)
      ensures PreferredUsable(adapters, capabilities, preferred) ==> r == FindAdapter(adapters, preferred.value)
      ensures !PreferredUsable(adapters, capabilities, preferred) && r.Some? && Usable(capabilities, r.value.name) ==>
              exists k | 0 <= k < |adapters| :: adapters[k] == r.value
                && forall j | 0 <= j < k :: !Usable(capabilities, adapters[j].name)
      ensures r.Some? && !Usable(capabilities, r.value.name) ==> r == First(adapters)
    {
      if preferred.Some? {
        var health := FindHealth(capabilities, preferred.value);
        if health.Some? && health.value != Unhealthy {
          var found := Get(preferred.value);
          if found.Some? {
            return found;
          }
        }
      }
      for i := 0 to |adapters|
        invariant forall k | 0 <= k < i :: !Usable(capabilities, adapters[k].name)
      {
        var health := FindHealth(capabilities, adapters[i].name);
        if health.None? || health.value != Unhealthy {
          return Some(adapters[i]);
        }
      }
      return First(adapters);
    }

    method FallbackChain(preferred: Option<string>) returns (chain: seq<Adapter>)
      ensures chain == Chain(adapters, preferred)
    {
      chain := [];
      if preferred.Some? {
        var found := Get(preferred.value);
        if found.Some? {
          chain := chain + [found.value];
        }
      }
      ghost var head := Preferred(adapters, preferred);
      assert chain == head;
      for i := 0 to |adapters|
        invariant chain == Extend(head, adapters[..i])
      {
        assert adapters[..i + 1][..i] == adapters[..i];
        if !Named(chain, adapters[i].name) {
          chain := chain + [adapters[i]];
        }
      }
      assert adapters[..|adapters|] == adapters;
      ExtendIsChain(adapters, preferred);
    }
  }

  lemma {:induction false} FirstRecordChanged(records: seq<Capability>, i: nat, health: Health, n: string)
    requires i < |records| && forall k | 0 <= k < i :: records[k].adapterId != records[i].adapterId
    ensures var name := records[i].adapterId;
            FindHealth(records[i := Capability(name, health)], n) ==
            if n == name && FindHealth(records, n).Some? then Some(health) else FindHealth(records, n)
  {
    var after := records[i := Capability(records[i].adapterId, health)];
    if i == 0 {
      assert after[1..] == records[1..];
    } else {
      assert after[1..] == records[1..][i - 1 := Capability(records[i].adapterId, health)];
      FirstRecordChanged(records[1..], i - 1, health, n);
    }
  }

  lemma {:induction false} NoRecord(records: seq<Capability>, name: string)
    requires forall k | 0 <= k < |records| :: records[k].adapterId != name
    ensures FindHealth(records, name).None?
  {
    if records == [] {
    } else {
      NoRecord(records[1..], name);
    }
  }

  lemma {:induction false} DistinctFirst(adapters: seq<Adapter>)
    ensures First(Distinct(adapters)) == First(adapters)
  {
    if adapters == [] {
    } else {
      DistinctFirst(adapters[..|adapters| - 1]);
    }
  }

  /** The chain after the loop has seen `more`. */
  function Extend(head: seq<Adapter>, more: seq<Adapter>): seq<Adapter> {
    if more == [] then head
    else
      var rest := Extend(head, more[..|more| - 1]);
      var last := more[|more| - 1];
      if Named(rest, last.name) then rest else rest + [last]
  }

  lemma {:induction false} ExtendEmpty(more: seq<Adapter>)
    ensures Extend([], more) == Distinct(more)
  {
    if more == [] {
    } else {
      ExtendEmpty(more[..|more| - 1]);
    }
  }

  lemma {:induction false} ExtendOne(a: Adapter, more: seq<Adapter>)
    ensures Extend([a], more) == [a] + Without(Distinct(more), a.name)
  {
    if more == [] {
    } else {
      var rest, last := more[..|more| - 1], more[|more| - 1];
      ExtendOne(a, rest);
      WithoutNamed(Distinct(rest), a.name, last.name);
      var others := Without(Distinct(rest), a.name);
      assert Named([a] + others, last.name) <==> last.name == a.name || Named(others, last.name) by {
        assert forall x <- others :: x in [a] + others;
        assert a in [a] + others;
      }
      if !Named(Distinct(rest), last.name) {
        assert (Distinct(rest) + [last])[..|Distinct(rest)|] == Distinct(rest);
        assert [a] + (others + [last]) == ([a] + others) + [last];
      }
    }
  }

  lemma {:induction false} WithoutNamed(adapters: seq<Adapter>, name: string, other: string)
    ensures Named(Without(adapters, name), other) <==> other != name && Named(adapters, other)
  {
    if adapters == [] {
    } else {
      var rest, last := adapters[..|adapters| - 1], adapters[|adapters| - 1];
      WithoutNamed(rest, name, other);
      assert forall x <- adapters :: x in rest || x == last;
      assert forall x <- rest :: x in adapters;
      var w := Without(rest, name);
      assert last in w + [last] && forall x <- w :: x in w + [last];
    }
  }

  lemma ExtendIsChain(adapters: seq<Adapter>, preferred: Option<string>)
    ensures Chain(adapters, preferred) == Extend(Preferred(adapters, preferred), adapters)
  {
    var head := Preferred(adapters, preferred);
    ExtendEmpty(adapters);
    if head != [] {
      assert head == [head[0]];
      ExtendOne(head[0], adapters);
    }
  }

  // What the chain is

  predicate NamesDistinct(adapters: seq<Adapter>) {
    forall i, j | 0 <= i < j < |adapters| :: adapters[i].name != adapters[j].name
  }

  lemma {:induction false} ExtendDistinct(head: seq<Adapter>, more: seq<Adapter>)
    requires NamesDistinct(head)
    ensures NamesDistinct(Extend(head, more))
    ensures forall n: string :: Named(Extend(head, more), n) <==> Named(head, n) || Named(more, n)
    ensures forall a <- Extend(head, more) :: a in head || a in more
  {
    if more == [] {
    } else {
      var rest, last := more[..|more| - 1], more[|more| - 1];
      ExtendDistinct(head, rest);
      var before := Extend(head, rest);
      forall n: string ensures Named(Extend(head, more), n) <==> Named(head, n) || Named(more, n) {
        NamedOneMore(rest, last, n);
        NamedOneMore(before, last, n);
        assert more == rest + [last];
      }
    }
  }

  lemma NamedOneMore(adapters: seq<Adapter>, a: Adapter, n: string)
    ensures Named(adapters + [a], n) <==> Named(adapters, n) || a.name == n
  {
    assert a in adapters + [a] && forall x <- adapters :: x in adapters + [a];
  }

  /** Main result: the chain holds each registered name once, and its head is
      the adapter `Select` answers with. */
  lemma ChainCoversOnce(adapters: seq<Adapter>, preferred: Option<string>)
    ensures var chain := Chain(adapters, preferred);
            && NamesDistinct(chain)
            && (forall n: string :: Named(chain, n) <==> Named(adapters, n))
            && (forall a <- chain :: a in adapters)
            && (preferred.Some? && Named(adapters, preferred.value) ==>
                chain != [] && chain[0].name == preferred.value)
  {
    var head := Preferred(adapters, preferred);
    ExtendIsChain(adapters, preferred);
    ExtendDistinct(head, adapters);
    forall n: string | Named(head, n) ensures Named(adapters, n) {
      assert head[0] in adapters;
    }
  }
}
