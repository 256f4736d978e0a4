/** Adapter selection told from places in the registry's lists. */
module RegistryLaws {
  import opened Text
  import opened AdapterRegistry

  /** The first record of the adapter, which is the one that counts. */
  predicate FirstRecord(records: seq<Capability>, name: string, i: nat) {
    i < |records| && records[i].adapterId == name && forall j | 0 <= j < i :: records[j].adapterId != name
  }

  predicate FirstNamed(adapters: seq<Adapter>, i: nat) {
    i < |adapters| && forall j | 0 <= j < i :: adapters[j].name != adapters[i].name
  }

  lemma {:induction false} HealthAt(records: seq<Capability>, name: string, i: nat)
    requires FirstRecord(records, name, i)
    ensures FindHealth(records, name) == Some(records[i].health)
  {
    if i == 0 {
    } else {
      assert forall j | 0 <= j < i - 1 :: records[1..][j] == records[j + 1];
      HealthAt(records[1..], name, i - 1);
    }
  }

  /** An adapter is out of use only while its first record says unhealthy:
      degraded, unknown or unrecorded ones are used. */
  lemma UsableLaw(records: seq<Capability>, name: string)
    ensures Usable(records, name) <==> forall i: nat | FirstRecord(records, name, i) :: records[i].health != Unhealthy
  {
    forall i: nat | FirstRecord(records, name, i) ensures FindHealth(records, name) == Some(records[i].health) {
      HealthAt(records, name, i);
    }
    if forall i | 0 <= i < |records| :: records[i].adapterId != name {
      NoRecord(records, name);
    } else {
      var _ := RecordPlace(records, name);
    }
  }

  lemma {:induction false} RecordPlace(records: seq<Capability>, name: string) returns (i: nat)
    requires exists k :: 0 <= k < |records| && records[k].adapterId == name
    ensures FirstRecord(records, name, i)
  {
    if records[0].adapterId == name {
      i := 0;
    } else {
      var k :| 0 <= k < |records| && records[k].adapterId == name;
      assert records[1..][k - 1].adapterId == name;
      var n := RecordPlace(records[1..], name);
      i := n + 1;
      assert forall j | 0 < j < i :: records[j] == records[1..][j - 1];
    }
  }

  /** The preferred adapter counts if it is registered and its first record does
      not say unhealthy; without a record it does not. */
  lemma PreferredLaw(adapters: seq<Adapter>, records: seq<Capability>, preferred: Option<string>)
    ensures PreferredUsable(adapters, records, preferred) <==>
            && preferred.Some? && (exists a <- adapters :: a.name == preferred.value)
            && exists i: nat :: FirstRecord(records, preferred.value, i) && records[i].health != Unhealthy
  {
    if preferred.Some? {
      var name := preferred.value;
      forall i: nat | FirstRecord(records, name, i) ensures FindHealth(records, name) == Some(records[i].health) {
        HealthAt(records, name, i);
      }
      if forall i | 0 <= i < |records| :: records[i].adapterId != name {
        NoRecord(records, name);
      } else {
        var _ := RecordPlace(records, name);
      }
    }
  }

  /** Looking a name up finds the first adapter registered under it. */
  lemma {:induction false} AdapterAt(adapters: seq<Adapter>, i: nat)
    requires FirstNamed(adapters, i)
    ensures FindAdapter(adapters, adapters[i].name) == Some(adapters[i])
  {
    if i == 0 {
    } else {
      assert forall j | 0 <= j < i - 1 :: adapters[1..][j] == adapters[j + 1];
      AdapterAt(adapters[1..], i - 1);
    }
  }

  /** `chain` lists the adapters at these places, which go up and are all first
      of their name. */
  ghost predicate InOrder(adapters: seq<Adapter>, chain: seq<Adapter>, at: seq<nat>) {
    && |at| == |chain|
    && (forall i | 0 <= i < |at| :: FirstNamed(adapters, at[i]) && chain[i] == adapters[at[i]])
    && forall i, j | 0 <= i < j < |at| :: at[i] < at[j]
  }

  lemma StaysInOrder(adapters: seq<Adapter>, last: Adapter, chain: seq<Adapter>, at: seq<nat>)
    requires InOrder(adapters, chain, at)
    ensures InOrder(adapters + [last], chain, at)
    ensures (forall a <- adapters :: a.name != last.name) ==>
            InOrder(adapters + [last], chain + [last], at + [|adapters|])
  {
    assert forall i | 0 <= i < |adapters| :: (adapters + [last])[i] == adapters[i];
  }

  lemma {:induction false} DistinctInOrder(adapters: seq<Adapter>) returns (at: seq<nat>)
    ensures InOrder(adapters, Distinct(adapters), at)
    ensures forall n: string :: Named(Distinct(adapters), n) <==> Named(adapters, n)
  {
    if adapters == [] {
      at := [];
    } else {
      var rest, last := adapters[..|adapters| - 1], adapters[|adapters| - 1];
      var before := DistinctInOrder(rest);
      StaysInOrder(rest, last, Distinct(rest), before);
      assert rest + [last] == adapters;
      at := if Named(Distinct(rest), last.name) then before else before + [|rest|];
      forall n: string ensures Named(Distinct(adapters), n) <==> Named(adapters, n) {
        NamedOneMore(rest, last, n);
        NamedOneMore(Distinct(rest), last, n);
      }
    }
  }

  lemma OneMoreInOrder(adapters: seq<Adapter>, chain: seq<Adapter>, at: seq<nat>, place: nat)
    requires InOrder(adapters, chain, at) && FirstNamed(adapters, place)
    requires at == [] || at[|at| - 1] < place
    ensures InOrder(adapters, chain + [adapters[place]], at + [place])
  {
  }

  lemma OneLessInOrder(adapters: seq<Adapter>, chain: seq<Adapter>, at: seq<nat>)
    requires InOrder(adapters, chain, at) && chain != []
    ensures var n := |chain| - 1;
            && InOrder(adapters, chain[..n], at[..n]) && FirstNamed(adapters, at[n]) && chain[n] == adapters[at[n]]
            && (n > 0 ==> at[..n][n - 1] < at[n])
  {
  }

  lemma {:induction false} WithoutInOrder(adapters: seq<Adapter>, chain: seq<Adapter>, at: seq<nat>, name: string)
    returns (left: seq<nat>)
    requires InOrder(adapters, chain, at)
    ensures InOrder(adapters, Without(chain, name), left)
    ensures left == [] || (at != [] && left[|left| - 1] <= at[|at| - 1])
    decreases |chain|
  {
    if chain == [] {
      left := [];
    } else {
      var n := |chain| - 1;
      OneLessInOrder(adapters, chain, at);
      left := WithoutInOrder(adapters, chain[..n], at[..n], name);
      if chain[n].name != name {
        OneMoreInOrder(adapters, Without(chain[..n], name), left, at[n]);
        left := left + [at[n]];
      }
    }
  }

  /** The chain is the preferred adapter, if it is registered, and then the first
      adapter of each other name in the order of registration. */
  lemma ChainInOrder(adapters: seq<Adapter>, preferred: Option<string>) returns (at: seq<nat>)
    ensures var chain := Chain(adapters, preferred);
            if preferred.Some? && Named(adapters, preferred.value)
            then chain != [] && Some(chain[0]) == FindAdapter(adapters, preferred.value)
                 && InOrder(adapters, chain[1..], at)
            else InOrder(adapters, chain, at)
  {
    at := DistinctInOrder(adapters);
    var head := Preferred(adapters, preferred);
    if head != [] {
      assert head == [head[0]];
      at := WithoutInOrder(adapters, Distinct(adapters), at, head[0].name);
      assert Chain(adapters, preferred)[1..] == Without(Distinct(adapters), head[0].name);
    }
  }

  /** With a degraded adapter and an unhealthy one, the degraded one is chosen. */
  lemma DegradedIsUsed()
    ensures var records := [Capability("a", Unhealthy), Capability("b", Degraded), Capability("a", Healthy)];
            !Usable(records, "a") && Usable(records, "b") && Usable(records, "c")
  {
  }
}
