/**
 * The registry itself: `MockProvider`, an ordered, mutable list of
 * `MockDescriptor` objects, each with a write-once lazy slot. Every method is
 * proved to do to `Snapshot()`, the list seen as a value, what the functions
 * of modules Registry and Resolution say.
 */
module Provider {
  import opened Reflection
  import opened Registry
  import opened Resolution

  /** The list of descriptors as a value. */
  function Views(ds: seq<MockDescriptor>): (r: State)
    reads ds
    ensures |r| == |ds|
    ensures forall i {:trigger r[i]} :: 0 <= i < |ds| ==> r[i] == EntryView(ds[i].serviceType, ds[i].slot)
  {
    if |ds| == 0 then [] else [EntryView(ds[0].serviceType, ds[0].slot)] + Views(ds[1..])
  }

  /** No descriptor object is listed twice. */
  ghost predicate Distinct(ds: seq<MockDescriptor>)
  {
    forall i, j :: 0 <= i < j < |ds| ==> ds[i] != ds[j]
  }

  /** The view of a concatenation is the concatenation of the views. */
  lemma {:induction false} ViewsAppend(a: seq<MockDescriptor>, b: seq<MockDescriptor>)
    ensures Views(a + b) == Views(a) + Views(b)
  {
    if |a| == 0 {
      assert a + b == b;
    } else {
      assert (a + b)[1..] == a[1..] + b;
      ViewsAppend(a[1..], b);
    }
  }

  lemma ViewsInsert(ds: seq<MockDescriptor>, i: nat, d: MockDescriptor)
    requires i <= |ds|
    ensures Views(ds[..i] + [d] + ds[i..]) == Views(ds)[..i] + [EntryView(d.serviceType, d.slot)] + Views(ds)[i..]
  {
    var a, b := ds[..i], ds[i..];
    var va, vb, vd := Views(a), Views(b), [EntryView(d.serviceType, d.slot)];
    assert Views([d]) == vd;
    ViewsAppend(a, b);
    assert a + b == ds;
    ViewsAppend(a, [d]);
    ViewsAppend(a + [d], b);
    assert Views(ds) == va + vb && |va| == i;
    assert Views(ds)[..i] == va && Views(ds)[i..] == vb;
  }

  lemma ViewsRemoveAt(ds: seq<MockDescriptor>, i: nat)
    requires i < |ds|
    ensures Views(ds[..i] + ds[i + 1..]) == Views(ds)[..i] + Views(ds)[i + 1..]
  {
    SplitAt(ds, i);
    ViewsRemoveMiddle(ds[..i], ds[i], ds[i + 1..]);
  }

  /** A sequence is its prefix, the element at `i`, and its suffix. */
  lemma SplitAt<T>(s: seq<T>, i: nat)
    requires i < |s|
    ensures s == s[..i] + ([s[i]] + s[i + 1..]) && |s[..i]| == i
  {
    assert s[i..] == [s[i]] + s[i + 1..];
    assert s == s[..i] + s[i..];
  }

  lemma ViewsRemoveMiddle(a: seq<MockDescriptor>, d: MockDescriptor, b: seq<MockDescriptor>)
    ensures var v := Views(a + ([d] + b)); Views(a + b) == v[..|a|] + v[|a| + 1..]
  {
    ViewsAppend(a, [d] + b);
    ViewsAppend([d], b);
    ViewsAppend(a, b);
    SplitAround(Views(a), Views([d]), Views(b));
  }

  /** Cutting one element out of a three-part sequence. */
  lemma SplitAround<T>(x: seq<T>, y: seq<T>, z: seq<T>)
    requires |y| == 1
    ensures (x + (y + z))[..|x|] == x && (x + (y + z))[|x| + 1..] == z
  {
  }

  lemma DistinctInsert(ds: seq<MockDescriptor>, i: nat, d: MockDescriptor)
    requires i <= |ds| && Distinct(ds) && d !in ds
    ensures Distinct(ds[..i] + [d] + ds[i..])
  {
    var r := ds[..i] + [d] + ds[i..];
    forall a, b | 0 <= a < b < |r|
      ensures r[a] != r[b]
    {
      if a < i && b < i {
      } else if a < i && b == i {
        assert r[a] == ds[a];
      } else if a < i {
        assert r[a] == ds[a] && r[b] == ds[b - 1];
      } else if a == i {
        assert r[b] == ds[b - 1];
      } else {
        assert r[a] == ds[a - 1] && r[b] == ds[b - 1];
      }
    }
  }

  /** Inserting a new descriptor of the same owner at `i` keeps the list's invariant and inserts its view. */
  lemma InsertedAt(ds: seq<MockDescriptor>, i: nat, d: MockDescriptor, owner: MockProvider, repr: set<MockDescriptor>)
    requires i <= |ds| && Distinct(ds) && d !in ds
    requires forall k :: 0 <= k < |ds| ==> ds[k].owner == owner && ds[k] in repr
    requires d.owner == owner
    ensures var r := ds[..i] + [d] + ds[i..];
            && Distinct(r)
            && (forall k :: 0 <= k < |r| ==> r[k].owner == owner && r[k] in repr + {d})
            && Views(r) == Views(ds)[..i] + [EntryView(d.serviceType, d.slot)] + Views(ds)[i..]
  {
    DistinctInsert(ds, i, d);
    ViewsInsert(ds, i, d);
    var r := ds[..i] + [d] + ds[i..];
    forall k | 0 <= k < |r|
      ensures r[k].owner == owner && r[k] in repr + {d}
    {
      assert r[k] == if k < i then ds[k] else if k == i then d else ds[k - 1];
    }
  }

  /** Removing the descriptor at `i` keeps the list's invariant and removes its view. */
  lemma RemovedAt(ds: seq<MockDescriptor>, i: nat, owner: MockProvider, repr: set<MockDescriptor>)
    requires i < |ds| && Distinct(ds)
    requires forall k :: 0 <= k < |ds| ==> ds[k].owner == owner && ds[k] in repr
    ensures var r := ds[..i] + ds[i + 1..];
            && Distinct(r)
            && (forall k :: 0 <= k < |r| ==> r[k].owner == owner && r[k] in repr - {ds[i]})
            && Views(r) == Views(ds)[..i] + Views(ds)[i + 1..]
  {
    DistinctRemoveAt(ds, i);
    ViewsRemoveAt(ds, i);
    var r := ds[..i] + ds[i + 1..];
    forall k | 0 <= k < |r|
      ensures r[k].owner == owner && r[k] in repr - {ds[i]}
    {
      assert r[k] == if k < i then ds[k] else ds[k + 1];
    }
  }

  lemma DistinctRemoveAt(ds: seq<MockDescriptor>, i: nat)
    requires i < |ds| && Distinct(ds)
    ensures Distinct(ds[..i] + ds[i + 1..])
  {
    var r := ds[..i] + ds[i + 1..];
    forall a, b | 0 <= a < b < |r|
      ensures r[a] != r[b]
    {
      if b < i {
      } else if a < i {
        assert r[a] == ds[a] && r[b] == ds[b + 1];
      } else {
        assert r[a] == ds[a + 1] && r[b] == ds[b + 1];
      }
    }
  }

  class MockDescriptor {
    const serviceType: TypeRef
    const implementationType: TypeRef
    const lifetime: Lifetime
    const owner: MockProvider
    var slot: Slot

    /** `MockDescriptor(serviceType, provider)`: nothing created until the first read. */
    constructor Deferred(serviceType: TypeRef, provider: MockProvider)
      ensures this.serviceType == serviceType && implementationType == serviceType && lifetime == Transient
      ensures owner == provider && slot == Pending
    {
      this.serviceType := serviceType;
      implementationType := serviceType;
      lifetime := Transient;
      owner := provider;
      slot := Pending;
    }

    /** `MockDescriptor(serviceType, instance, provider)`: created from the start, holding `instance`. */
    constructor Ready(serviceType: TypeRef, instance: Held, provider: MockProvider)
      ensures this.serviceType == serviceType && implementationType == serviceType && lifetime == Transient
      ensures owner == provider && slot == Created(instance)
    {
      this.serviceType := serviceType;
      implementationType := serviceType;
      lifetime := Transient;
      owner := provider;
      slot := Created(instance);
    }

    /** `IsCreated`. */
    predicate IsCreated()
      reads this
    {
      slot.Created?
    }

    /** `ToString()`: the short name of the service type. */
    function ToString(): string
    {
      serviceType.name
    }

    /**
     * `Mock`, the lazy slot's value. `at` says where this descriptor sits in
     * its owner's list, if it does. A created slot answers what it holds and
     * nothing changes; otherwise see `ReadValueSpec`.
     */
    method ReadMock(env: Env, fuel: nat, ghost at: Option<nat>) returns (r: Outcome<Held>)
      requires owner.Valid()
      requires at.Some? ==> at.value < |owner.entries| && owner.entries[at.value] == this
      requires at.None? ==> this !in owner.Repr
      modifies this, owner, owner.Repr
      ensures owner.Valid()
      ensures old(owner.entries) <= owner.entries
      ensures fresh(owner.Repr - old(owner.Repr))
      ensures var sp := ReadValueSpec(env, old(owner.Snapshot()), serviceType, old(slot), at, fuel);
              r == sp.result && owner.Snapshot() == sp.state && slot == sp.slot
      ensures old(slot).Created? ==> slot == old(slot) && r == Ok(old(slot).held)
      decreases fuel, 6
    {
      match slot {
        case Created(h) => r := Ok(h);
        case Faulted(e) => r := Err(e);
        case Running => r := Err(RecursiveLazyAccess);
        case Pending => r := RunFactory(env, fuel, at);
      }
    }

    /** The first read of a pending slot: the factory runs, fails, and the slot keeps the failure. */
    method RunFactory(env: Env, fuel: nat, ghost at: Option<nat>) returns (r: Outcome<Held>)
      requires owner.Valid() && slot == Pending
      requires at.Some? ==> at.value < |owner.entries| && owner.entries[at.value] == this
      requires at.None? ==> this !in owner.Repr
      modifies this, owner, owner.Repr
      ensures owner.Valid()
      ensures old(owner.entries) <= owner.entries
      ensures fresh(owner.Repr - old(owner.Repr))
      ensures var sp := ReadValueSpec(env, old(owner.Snapshot()), serviceType, Pending, at, fuel);
              r == sp.result && owner.Snapshot() == sp.state && slot == sp.slot
      decreases fuel, 5
    {
      var e := Factory(env, fuel, at);
      SetSlot(Faulted(e), at);
      r := Err(e);
    }

    /**
     * The factory `() => owner.CreateMock(serviceType)` while the slot is
     * running; its result is a descriptor, not a mock, so it always fails.
     */
    method Factory(env: Env, fuel: nat, ghost at: Option<nat>) returns (e: Error)
      requires owner.Valid()
      requires at.Some? ==> at.value < |owner.entries| && owner.entries[at.value] == this
      requires at.None? ==> this !in owner.Repr
      modifies this, owner, owner.Repr
      ensures owner.Valid()
      ensures old(owner.entries) <= owner.entries
      ensures fresh(owner.Repr - old(owner.Repr))
      ensures at.None? ==> this !in owner.Repr
      ensures var c := CreateMockSpec(env, SetSlotAt(old(owner.Snapshot()), at, Running), serviceType, fuel);
              owner.Snapshot() == c.state && e == if c.result.Err? then c.result.error else FactoryResultNotMock
      decreases fuel, 4
    {
      SetSlot(Running, at);
      var c := owner.CreateMock(env, serviceType, fuel);
      e := if c.Err? then c.error else FactoryResultNotMock;
    }

    /** Writes the slot; the owner's list sees the write at `at`. */
    method SetSlot(v: Slot, ghost at: Option<nat>)
      requires owner.Valid()
      requires at.Some? ==> at.value < |owner.entries| && owner.entries[at.value] == this
      requires at.None? ==> this !in owner.Repr
      modifies this
      ensures slot == v
      ensures owner.Snapshot() == SetSlotAt(old(owner.Snapshot()), at, v)
    {
      ghost var s0 := owner.Snapshot();
      slot := v;
      ghost var s1 := owner.Snapshot();
      forall i | 0 <= i < |s1|
        ensures s1[i] == SetSlotAt(s0, at, v)[i]
      {
        if at.Some? && i == at.value {
        } else {
          assert owner.entries[i] != this;
        }
      }
    }

    /** `Instance`: the `Object` of the lazy slot's value. */
    method Instance(env: Env, fuel: nat, ghost at: Option<nat>) returns (r: Outcome<Value>)
      requires owner.Valid()
      requires at.Some? ==> at.value < |owner.entries| && owner.entries[at.value] == this
      requires at.None? ==> this !in owner.Repr
      modifies this, owner, owner.Repr
      ensures owner.Valid()
      ensures old(owner.entries) <= owner.entries
      ensures fresh(owner.Repr - old(owner.Repr))
      ensures var sp := ReadValueSpec(env, old(owner.Snapshot()), serviceType, old(slot), at, fuel);
              owner.Snapshot() == sp.state && slot == sp.slot &&
              r == if sp.result.Err? then Err(sp.result.error) else ObjectOf(env, sp.result.value)
      decreases fuel, 7
    {
      var m := ReadMock(env, fuel, at);
      match m {
        case Err(e) => r := Err(e);
        case Ok(h) => r := ObjectOf(env, h);
      }
    }

    /** `Verify()`: never forces the slot; a created mock is verified once. */
    method Verify(env: Env) returns (r: Outcome<()>)
      ensures r == VerifySlot(env, slot)
    {
      if IsCreated() {
        match slot.held {
          case NullMock => r := Err(NullReference);
          case MockOf(m) =>
            match env.verify(m) {
              case None => r := Ok(());
              case Some(msg) => r := Err(VerificationFailed(msg));
            }
          case ProviderInstance => r := Ok(());
        }
      } else {
        r := Ok(());
      }
    }
  }

  class MockProvider {
    var entries: seq<MockDescriptor>
    /** The registry's descriptors: every listed one is among them, and the methods that drop one from the list take it out. */
    ghost var Repr: set<MockDescriptor>

    /** Every listed descriptor belongs to this registry, is in `Repr` and is listed once. */
    ghost predicate Valid()
      reads this
    {
      && (forall i :: 0 <= i < |entries| ==> entries[i].owner == this && entries[i] in Repr)
      && Distinct(entries)
    }

    function Snapshot(): State
      requires Valid()
      reads this, Repr
    {
      Views(entries)
    }

    /** `MockProvider()`: the two seed entries, both holding the registry itself. */
    constructor ()
      ensures Valid() && Snapshot() == SeedState()
      ensures fresh(Repr)
    {
      entries := [];
      Repr := {};
      new;
      Seed();
    }

    /** `MockProvider(params Mock[] mocks)`: the seeds, then each mock added under its generic argument. */
    constructor WithMocks(mocks: seq<Mock>)
      ensures Valid() && Snapshot() == AddAllSpec(SeedState(), mocks)
      ensures fresh(Repr)
    {
      entries := [];
      Repr := {};
      new;
      Seed();
      ghost var target := AddAllSpec(Snapshot(), mocks);
      var i := 0;
      assert mocks[0..] == mocks;
      while i < |mocks|
        invariant 0 <= i <= |mocks|
        invariant Valid()
        invariant fresh(Repr)
        invariant AddAllSpec(Snapshot(), mocks[i..]) == target
      {
        assert mocks[i..][0] == mocks[i] && mocks[i..][1..] == mocks[i + 1..];
        AddMock(mocks[i]);
        i := i + 1;
      }
      assert mocks[i..] == [];
    }

    method Seed()
      modifies this
      ensures Valid() && Snapshot() == SeedState()
      ensures fresh(Repr)
    {
      var a := new MockDescriptor.Ready(ServiceProviderType, ProviderInstance, this);
      var b := new MockDescriptor.Ready(ServiceCollectionType, ProviderInstance, this);
      entries := [a, b];
      Repr := {a, b};
    }

    /** `Add(t, mock)`: the first entry with `t`'s full name, or a new created entry for `t` at the end. */
    method Add(t: TypeRef, mock: Held) returns (d: MockDescriptor)
      requires Valid()
      modifies this
      ensures Valid()
      ensures old(entries) <= entries
      ensures fresh(Repr - old(Repr))
      ensures var p := AddSpec(old(Snapshot()), t, mock);
              Snapshot() == p.state && p.index < |entries| && d == entries[p.index]
    {
      var found := FindByFullName(Snapshot(), t);
      if found.Some? {
        d := entries[found.value];
      } else {
        d := new MockDescriptor.Ready(t, mock, this);
        entries := entries + [d];
        Repr := Repr + {d};
      }
    }

    /** `Add<T>(Mock<T> mock)`: `Add(typeof(T), mock)`. */
    method AddMock(mock: Mock)
      requires Valid()
      modifies this
      ensures Valid()
      ensures fresh(Repr - old(Repr))
      ensures Snapshot() == AddSpec(old(Snapshot()), mock.target, MockOf(mock)).state
    {
      var _ := Add(mock.target, MockOf(mock));
    }

    /** `CreateMock(t, args)`: an existing created entry, else whatever `Add` returns for a newly built mock. */
    method CreateMockWith(env: Env, t: TypeRef, args: seq<Value>) returns (d: MockDescriptor)
      requires Valid()
      modifies this
      ensures Valid()
      ensures old(entries) <= entries
      ensures fresh(Repr - old(Repr))
      ensures var p := CreateMockWithSpec(env, old(Snapshot()), t, args);
              Snapshot() == p.state && p.index < |entries| && d == entries[p.index]
    {
      var found := FindByFullName(Snapshot(), t);
      if found.None? || !entries[found.value].IsCreated() {
        var m := Build(env, t, args);
        d := Add(t, m);
      } else {
        d := entries[found.value];
      }
    }

    /** `CreateMock(t)`: `CreateMock(t, GetConstructorParameters(t))`. */
    method CreateMock(env: Env, t: TypeRef, fuel: nat) returns (r: Outcome<MockDescriptor>)
      requires Valid()
      modifies this, Repr
      ensures Valid()
      ensures old(entries) <= entries
      ensures fresh(Repr - old(Repr))
      ensures var sp := CreateMockSpec(env, old(Snapshot()), t, fuel);
              && Snapshot() == sp.state
              && (sp.result.Err? ==> r == Err(sp.result.error))
              && (sp.result.Ok? ==> r.Ok? && sp.result.value < |entries| && r.value == entries[sp.result.value])
      decreases fuel, 3
    {
      var a := GetConstructorParameters(env, t, fuel);
      match a {
        case Err(e) => r := Err(e);
        case Ok(args) =>
          var d := CreateMockWith(env, t, args);
          r := Ok(d);
      }
    }

    /** `GetConstructorParameters(t)`: arguments for the first qualifying constructor of `t`. */
    method GetConstructorParameters(env: Env, t: TypeRef, fuel: nat) returns (r: Outcome<seq<Value>>)
      requires Valid()
      modifies this, Repr
      ensures Valid()
      ensures old(entries) <= entries
      ensures fresh(Repr - old(Repr))
      ensures Step(r, Snapshot()) == CtorArgsSpec(env, old(Snapshot()), t, fuel)
      decreases fuel, 2
    {
      var ctors := env.reflect(t).ctors;
      var k := SelectConstructor(Snapshot(), ctors);
      if k.None? || |ctors[k.value].params| == 0 {
        return Ok([]);
      }
      r := ResolveParams(env, ctors[k.value].params, fuel);
    }

    /** `parameters.Select(p => GetService(p.ParameterType)).ToArray()`: left to right; the first failure propagates. */
    method ResolveParams(env: Env, ps: seq<Param>, fuel: nat) returns (r: Outcome<seq<Value>>)
      requires Valid()
      modifies this, Repr
      ensures Valid()
      ensures old(entries) <= entries
      ensures fresh(Repr - old(Repr))
      ensures Step(r, Snapshot()) == ResolveParamsSpec(env, old(Snapshot()), ps, fuel)
      decreases fuel, 1
    {
      var vals: seq<Value> := [];
      var i := 0;
      assert ps[0..] == ps;
      while i < |ps|
        invariant 0 <= i <= |ps|
        invariant Valid()
        invariant old(entries) <= entries
        invariant fresh(Repr - old(Repr))
        invariant ResolveParamsSpec(env, old(Snapshot()), ps, fuel)
                  == Prepend(vals, ResolveParamsSpec(env, Snapshot(), ps[i..], fuel))
      {
        var v := ResolveAt(env, ps, i, fuel, vals);
        if v.Err? {
          return Err(v.error);
        }
        vals := vals + [v.value];
        i := i + 1;
      }
      assert ps[i..] == [];
      assert ResolveParamsSpec(env, Snapshot(), ps[i..], fuel) == Step(Ok([]), Snapshot());
      assert vals + [] == vals;
      r := Ok(vals);
    }

    /** Resolves parameter `i`: `GetService` of its type, or running out of depth. */
    method ResolveAt(env: Env, ps: seq<Param>, i: nat, fuel: nat, ghost vals: seq<Value>) returns (v: Outcome<Value>)
      requires Valid() && i < |ps|
      modifies this, Repr
      ensures Valid()
      ensures old(entries) <= entries
      ensures fresh(Repr - old(Repr))
      ensures v.Err? ==> Prepend(vals, ResolveParamsSpec(env, old(Snapshot()), ps[i..], fuel))
                         == Step(Err(v.error), Snapshot())
      ensures v.Ok? ==> Prepend(vals, ResolveParamsSpec(env, old(Snapshot()), ps[i..], fuel))
                        == Prepend(vals + [v.value], ResolveParamsSpec(env, Snapshot(), ps[i + 1..], fuel))
      decreases fuel, 0
    {
      if fuel == 0 {
        assert ResolveParamsSpec(env, Snapshot(), ps[i..], fuel) == Step(Err(DepthExceeded), Snapshot());
        return Err(DepthExceeded);
      }
      ghost var s := Snapshot();
      v := GetService(env, ps[i].paramType, fuel - 1);
      ghost var s1 := Snapshot();
      assert Step(v, s1) == GetServiceSpec(env, s, ps[i].paramType, fuel - 1);
      if v.Err? {
        ResolveParamsFails(env, s, ps, i, fuel, vals, v.error, s1);
      } else {
        ResolveParamsAdvances(env, s, ps, i, fuel, vals, v.value, s1);
      }
    }

    /** `GetService(t)`: `CreateMock(t).Instance`. */
    method GetService(env: Env, t: TypeRef, fuel: nat) returns (r: Outcome<Value>)
      requires Valid()
      modifies this, Repr
      ensures Valid()
      ensures old(entries) <= entries
      ensures fresh(Repr - old(Repr))
      ensures Step(r, Snapshot()) == GetServiceSpec(env, old(Snapshot()), t, fuel)
      decreases fuel, 8
    {
      ghost var s0 := Snapshot();
      ghost var sp := CreateMockSpec(env, s0, t, fuel);
      var c := CreateMock(env, t, fuel);
      match c {
        case Err(e) =>
          r := Err(e);
        case Ok(d) =>
          ghost var i := sp.result.value;
          ghost var s1 := Snapshot();
          assert s1[i] == EntryView(d.serviceType, d.slot);
          ghost var v := ReadValueSpec(env, s1, s1[i].serviceType, s1[i].slot, Some(i), fuel);
          assert GetServiceSpec(env, s0, t, fuel)
              == Step(if v.result.Err? then Err(v.result.error) else ObjectOf(env, v.result.value), v.state);
          r := d.Instance(env, fuel, Some(i));
      }
    }

    /** `CreateMock<U>(params object[] o)`: `CreateMock(typeof(U), o).Mock as Mock<U>`. */
    method CreateMockOf(env: Env, t: TypeRef, args: seq<Value>, fuel: nat) returns (r: Outcome<Option<Mock>>)
      requires Valid()
      modifies this, Repr
      ensures Valid()
      ensures var p := CreateMockWithSpec(env, old(Snapshot()), t, args);
              var v := ReadValueSpec(env, p.state, p.state[p.index].serviceType, p.state[p.index].slot, Some(p.index), fuel);
              Snapshot() == v.state && r == AsMockOf(t, v.result)
    {
      ghost var p := CreateMockWithSpec(env, Snapshot(), t, args);
      var d := CreateMockWith(env, t, args);
      var h := d.ReadMock(env, fuel, Some(p.index));
      r := AsMockOf(t, h);
    }

    /** `CreateMock<U>()`: `CreateMock(typeof(U)).Mock as Mock<U>`. */
    method CreateMockAuto(env: Env, t: TypeRef, fuel: nat) returns (r: Outcome<Option<Mock>>)
      requires Valid()
      modifies this, Repr
      ensures Valid()
      ensures var c := CreateMockSpec(env, old(Snapshot()), t, fuel);
              if c.result.Err? then r == Err(c.result.error) && Snapshot() == c.state
              else var i := c.result.value;
                   var v := ReadValueSpec(env, c.state, c.state[i].serviceType, c.state[i].slot, Some(i), fuel);
                   Snapshot() == v.state && r == AsMockOf(t, v.result)
    {
      ghost var sp := CreateMockSpec(env, Snapshot(), t, fuel);
      var c := CreateMock(env, t, fuel);
      match c {
        case Err(e) => r := Err(e);
        case Ok(d) =>
          var h := d.ReadMock(env, fuel, Some(sp.result.value));
          r := AsMockOf(t, h);
      }
    }

    /** `Verify()`: every descriptor in list order; the first failure propagates. */
    method Verify(env: Env) returns (r: Outcome<()>)
      requires Valid()
      ensures r == VerifyAllSpec(env, Snapshot())
    {
      var i := 0;
      while i < |entries|
        invariant 0 <= i <= |entries|
        invariant VerifyAllSpec(env, Snapshot()) == VerifyAllSpec(env, Snapshot()[i..])
      {
        assert Snapshot()[i..][0] == Snapshot()[i] && Snapshot()[i..][1..] == Snapshot()[i + 1..];
        r := entries[i].Verify(env);
        if r.Err? {
          return;
        }
        i := i + 1;
      }
      r := Ok(());
    }

    // -------------------------------------------------------------------
    // IList<ServiceDescriptor>
    // -------------------------------------------------------------------

    /** `Count`. */
    function Count(): (n: nat)
      requires Valid()
      reads this, Repr
      ensures n == |Snapshot()|
    {
      |entries|
    }

    /** The indexer's getter. */
    method Get(index: int) returns (r: Outcome<MockDescriptor>)
      ensures r.Ok? <==> 0 <= index < |entries|
      ensures r.Ok? ==> r.value == entries[index]
      ensures r.Err? ==> r.error == ArgumentOutOfRange
    {
      if 0 <= index < |entries| {
        r := Ok(entries[index]);
      } else {
        r := Err(ArgumentOutOfRange);
      }
    }

    /** The indexer's setter: position `index` gets a new uncreated descriptor for the value's service type. */
    method Set(index: int, item: ServiceDescriptor) returns (r: Outcome<()>)
      requires Valid()
      modifies this
      ensures Valid()
      ensures fresh(Repr - old(Repr))
      ensures (r, Snapshot()) == SetAtSpec(old(Snapshot()), index, item.serviceType)
      ensures 0 <= index < |old(entries)| ==> old(entries)[index] !in Repr
    {
      var d := new MockDescriptor.Deferred(item.serviceType, this);
      if 0 <= index < |entries| {
        ghost var s0 := Snapshot();
        Repr := Repr - {entries[index]} + {d};
        entries := entries[index := d];
        assert Snapshot() == s0[index := Deferred(item.serviceType)];
        r := Ok(());
      } else {
        r := Err(ArgumentOutOfRange);
      }
    }

    /** `ICollection<ServiceDescriptor>.Add(item)`: a new uncreated descriptor for the item's type at the end. */
    method AddService(item: ServiceDescriptor)
      requires Valid()
      modifies this
      ensures Valid()
      ensures fresh(Repr - old(Repr))
      ensures Snapshot() == old(Snapshot()) + [Deferred(item.serviceType)]
    {
      var d := new MockDescriptor.Deferred(item.serviceType, this);
      entries := entries + [d];
      Repr := Repr + {d};
    }

    /** `IndexOf(item)`: the position of the first descriptor whose service type is the item's, or -1. */
    function IndexOf(item: ServiceDescriptor): (r: int)
      requires Valid()
      reads this, Repr
      ensures -1 <= r < |entries|
      ensures r == -1 <==> forall j :: 0 <= j < |entries| ==> entries[j].serviceType != item.serviceType
      ensures r >= 0 ==> entries[r].serviceType == item.serviceType
                         && forall j :: 0 <= j < r ==> entries[j].serviceType != item.serviceType
    {
      var s := Snapshot();
      assert forall j :: 0 <= j < |s| ==> s[j].serviceType == entries[j].serviceType;
      IndexOfSpec(s, item.serviceType)
    }

    /** `Contains(item)`. */
    predicate Contains(item: ServiceDescriptor)
      requires Valid()
      reads this, Repr
      ensures Contains(item) <==> IndexOf(item) != -1
    {
      exists j :: 0 <= j < |entries| && entries[j].serviceType == item.serviceType
    }

    /** `Insert(index, item)`. */
    method Insert(index: int, item: ServiceDescriptor) returns (r: Outcome<()>)
      requires Valid()
      modifies this
      ensures Valid()
      ensures fresh(Repr - old(Repr))
      ensures (r, Snapshot()) == InsertSpec(old(Snapshot()), index, item.serviceType)
    {
      var d := new MockDescriptor.Deferred(item.serviceType, this);
      if 0 <= index <= |entries| {
        ghost var s0 := Snapshot();
        InsertedAt(entries, index, d, this, Repr);
        entries := entries[..index] + [d] + entries[index..];
        Repr := Repr + {d};
        assert Snapshot() == s0[..index] + [Deferred(item.serviceType)] + s0[index..];
        r := Ok(());
      } else {
        r := Err(ArgumentOutOfRange);
      }
    }

    /** `RemoveAt(index)`. */
    method RemoveAt(index: int) returns (r: Outcome<()>)
      requires Valid()
      modifies this
      ensures Valid()
      ensures fresh(Repr - old(Repr))
      ensures (r, Snapshot()) == RemoveAtSpec(old(Snapshot()), index)
      ensures 0 <= index < |old(entries)| ==> old(entries)[index] !in Repr
    {
      if 0 <= index < |entries| {
        ghost var s0 := Snapshot();
        RemovedAt(entries, index, this, Repr);
        Repr := Repr - {entries[index]};
        entries := entries[..index] + entries[index + 1..];
        assert Snapshot() == s0[..index] + s0[index + 1..];
        r := Ok(());
      } else {
        r := Err(ArgumentOutOfRange);
      }
    }

    /** `Remove(item)`: deletes the first descriptor of the item's type, if any. */
    method Remove(item: ServiceDescriptor) returns (removed: bool)
      requires Valid()
      modifies this
      ensures Valid()
      ensures fresh(Repr - old(Repr))
      ensures (removed, Snapshot()) == RemoveSpec(old(Snapshot()), item.serviceType)
      ensures removed ==> old(entries)[old(IndexOf(item))] !in Repr
    {
      ghost var s0 := Snapshot();
      var i := IndexOf(item);
      if i == -1 {
        removed := false;
      } else {
        RemovedAt(entries, i, this, Repr);
        Repr := Repr - {entries[i]};
        entries := entries[..i] + entries[i + 1..];
        assert Snapshot() == s0[..i] + s0[i + 1..];
        removed := true;
      }
    }

    /** `Clear()`: no entries at all; the seed entries are not put back. */
    method Clear()
      modifies this
      ensures Valid() && Snapshot() == []
      ensures fresh(Repr - old(Repr))
      ensures Repr == {}
    {
      entries := [];
      Repr := {};
    }
  }

  /**
   * A descriptor that `RemoveAt` took out of the list still answers `Mock`;
   * its read runs against the list as it stands without it.
   */
  method ReadRemoved(p: MockProvider, index: int, env: Env, fuel: nat) returns (r: Outcome<Held>)
    requires p.Valid() && 0 <= index < |p.entries|
    modifies p, p.Repr
    ensures p.Valid()
    ensures var d := old(p.entries[index]);
            var sp := ReadValueSpec(env, RemoveAtSpec(old(p.Snapshot()), index).1, d.serviceType, old(d.slot), None, fuel);
            r == sp.result && p.Snapshot() == sp.state
  {
    var d := p.entries[index];
    var _ := p.RemoveAt(index);
    r := d.ReadMock(env, fuel, None);
  }

  /**
   * A listed descriptor's `IsCreated` is its entry's slot being created, and
   * no resolution step changes it: a created slot stays with what it holds
   * and an uncreated one never becomes created.
   */
  lemma IsCreatedIsFixed(p: MockProvider, i: nat, s': State)
    requires p.Valid() && i < |p.entries|
    requires Evolves(p.Snapshot(), s')
    ensures p.entries[i].IsCreated() <==> s'[i].slot.Created?
    ensures p.entries[i].IsCreated() ==> s'[i].slot == Created(p.entries[i].slot.held)
  {
    assert p.Snapshot()[i].slot == p.entries[i].slot;
  }

  /** Resolving the parameters from position `i` on, when the one at `i` resolves to `v`. */
  lemma ResolveParamsAdvances(env: Env, s: State, ps: seq<Param>, i: nat, fuel: nat, vals: seq<Value>, v: Value, s1: State)
    requires i < |ps| && fuel > 0
    requires GetServiceSpec(env, s, ps[i].paramType, fuel - 1) == Step(Ok(v), s1)
    ensures Prepend(vals, ResolveParamsSpec(env, s, ps[i..], fuel))
            == Prepend(vals + [v], ResolveParamsSpec(env, s1, ps[i + 1..], fuel))
  {
    assert ps[i..][0] == ps[i] && ps[i..][1..] == ps[i + 1..];
    var rest := ResolveParamsSpec(env, s1, ps[i + 1..], fuel);
    assert ResolveParamsSpec(env, s, ps[i..], fuel) == Prepend([v], rest);
    PrependTwice(vals, [v], rest);
  }

  /** Resolving the parameters from position `i` on, when the one at `i` fails with `e`. */
  lemma ResolveParamsFails(env: Env, s: State, ps: seq<Param>, i: nat, fuel: nat, vals: seq<Value>, e: Error, s1: State)
    requires i < |ps| && fuel > 0
    requires GetServiceSpec(env, s, ps[i].paramType, fuel - 1) == Step(Err(e), s1)
    ensures Prepend(vals, ResolveParamsSpec(env, s, ps[i..], fuel)) == Step(Err(e), s1)
  {
    assert ps[i..][0] == ps[i] && ps[i..][1..] == ps[i + 1..];
  }

  /** `x.Mock as Mock<U>`: the held mock when it is a `Mock<U>`, otherwise null. */
  function AsMockOf(t: TypeRef, h: Outcome<Held>): (r: Outcome<Option<Mock>>)
    ensures r.Err? <==> h.Err?
    ensures r.Ok? && r.value.Some? ==> h == Ok(MockOf(r.value.value)) && r.value.value.target == t
    ensures h.Ok? && h.value.MockOf? && h.value.mock.target == t ==> r == Ok(Some(h.value.mock))
    ensures h.Err? ==> r == Err(h.error)
  {
    match h
    case Err(e) => Err(e)
    case Ok(MockOf(m)) => if m.target == t then Ok(Some(m)) else Ok(None)
    case Ok(_) => Ok(None)
  }

  /**
   * `ToString` renders the short name, the same key constructor qualification
   * compares: a constructor qualifies exactly when each parameter type's short
   * name is the rendering of some listed descriptor.
   */
  lemma QualifiesByRendering(p: MockProvider, c: Ctor)
    requires p.Valid()
    ensures Qualifies(p.Snapshot(), c) <==>
              (|c.params| == 0 || forall k :: 0 <= k < |c.params| ==>
                 exists i :: 0 <= i < |p.entries| && p.entries[i].ToString() == c.params[k].paramType.name)
  {
    var s := p.Snapshot();
    forall k | 0 <= k < |c.params|
      ensures HasShortName(s, c.params[k].paramType.name) <==>
              exists i :: 0 <= i < |p.entries| && p.entries[i].ToString() == c.params[k].paramType.name
    {
      if HasShortName(s, c.params[k].paramType.name) {
        var i :| 0 <= i < |s| && s[i].serviceType.name == c.params[k].paramType.name;
        assert p.entries[i].ToString() == c.params[k].paramType.name;
      }
      if exists i :: 0 <= i < |p.entries| && p.entries[i].ToString() == c.params[k].paramType.name {
        var i :| 0 <= i < |p.entries| && p.entries[i].ToString() == c.params[k].paramType.name;
        assert s[i].serviceType.name == c.params[k].paramType.name;
      }
    }
  }
}
