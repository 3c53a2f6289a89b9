/**
 * The `configureServices` callback both checkers hand a fresh registry. The
 * callback only sees the registry as an `IServiceCollection`, so what it can
 * do is a script of list calls; it is modelled as that script together with
 * the assembly that declares it.
 */
module Configuration {
  import opened Reflection
  import opened Registry
  import opened Resolution
  import opened Provider

  /** One call of the callback on the `IServiceCollection` view. */
  datatype Registration =
    | AddDescriptor(item: ServiceDescriptor)          // ICollection.Add, what AddTransient and friends call
    | InsertAt(index: int, item: ServiceDescriptor)
    | SetAt(index: int, item: ServiceDescriptor)
    | RemoveAt(index: int)
    | RemoveDescriptor(item: ServiceDescriptor)
    | ClearAll

  /** `Action<IServiceCollection> configureServices`: its calls, and the types of the assembly declaring its method. */
  datatype Callback = Callback(declaringAssembly: seq<TypeRef>, steps: seq<Registration>)

  /** One call on the list; an out-of-range index throws and the callback stops there. */
  function ApplySpec(s: State, step: Registration): (r: Step<()>)
  {
    match step
    case AddDescriptor(item) => Step(Ok(()), s + [Deferred(item.serviceType)])
    case InsertAt(index, item) => var (o, s') := InsertSpec(s, index, item.serviceType); Step(o, s')
    case SetAt(index, item) => var (o, s') := SetAtSpec(s, index, item.serviceType); Step(o, s')
    case RemoveAt(index) => var (o, s') := RemoveAtSpec(s, index); Step(o, s')
    case RemoveDescriptor(item) => Step(Ok(()), RemoveSpec(s, item.serviceType).1)
    case ClearAll => Step(Ok(()), [])
  }

  /** The whole callback: its calls in order, up to the first that throws. */
  function ConfigureSpec(s: State, steps: seq<Registration>): Step<()>
    decreases |steps|
  {
    if |steps| == 0 then Step(Ok(()), s)
    else
      var c := ApplySpec(s, steps[0]);
      if c.result.Err? then c else ConfigureSpec(c.state, steps[1..])
  }

  /** One call of the callback on `p`. */
  method Apply(p: MockProvider, step: Registration) returns (r: Outcome<()>)
    requires p.Valid()
    modifies p
    ensures p.Valid()
    ensures fresh(p.Repr - old(p.Repr))
    ensures Step(r, p.Snapshot()) == ApplySpec(old(p.Snapshot()), step)
  {
    match step {
      case AddDescriptor(item) => p.AddService(item); r := Ok(());
      case InsertAt(index, item) => r := p.Insert(index, item);
      case SetAt(index, item) => r := p.Set(index, item);
      case RemoveAt(index) => r := p.RemoveAt(index);
      case RemoveDescriptor(item) => var _ := p.Remove(item); r := Ok(());
      case ClearAll => p.Clear(); r := Ok(());
    }
  }

  /** Runs the callback on `p`, call by call. */
  method Configure(p: MockProvider, steps: seq<Registration>) returns (r: Outcome<()>)
    requires p.Valid()
    modifies p
    ensures p.Valid()
    ensures fresh(p.Repr - old(p.Repr))
    ensures Step(r, p.Snapshot()) == ConfigureSpec(old(p.Snapshot()), steps)
  {
    var i := 0;
    while i < |steps|
      invariant 0 <= i <= |steps|
      invariant p.Valid()
      invariant fresh(p.Repr - old(p.Repr))
      invariant ConfigureSpec(old(p.Snapshot()), steps) == ConfigureSpec(p.Snapshot(), steps[i..])
    {
      assert steps[i..][0] == steps[i] && steps[i..][1..] == steps[i + 1..];
      r := Apply(p, steps[i]);
      if r.Err? {
        return;
      }
      i := i + 1;
    }
    r := Ok(());
  }

  // ---------------------------------------------------------------------
  // What a configured registry looks like.
  // ---------------------------------------------------------------------

  predicate IsSeedType(t: TypeRef)
  {
    t == ServiceProviderType || t == ServiceCollectionType
  }

  /**
   * Every entry is either a seed entry holding the registry or an entry added
   * through the `IServiceCollection` view, still pending.
   */
  predicate OnlySeedsCreated(s: State)
  {
    forall i :: 0 <= i < |s| ==>
      s[i].slot == Pending || (s[i].slot == Created(ProviderInstance) && IsSeedType(s[i].serviceType))
  }

  /** A single call keeps `OnlySeedsCreated`: the view only ever adds pending entries. */
  lemma ApplyKeepsOnlySeedsCreated(s: State, step: Registration)
    requires OnlySeedsCreated(s)
    ensures OnlySeedsCreated(ApplySpec(s, step).state)
  {
    match step
    case AddDescriptor(item) =>
    case InsertAt(index, item) =>
      var s' := ApplySpec(s, step).state;
      if 0 <= index <= |s| {
        forall i | 0 <= i < |s'|
          ensures s'[i].slot == Pending || (s'[i].slot == Created(ProviderInstance) && IsSeedType(s'[i].serviceType))
        {
          if i > index {
            assert s'[i] == s[i - 1];
          }
        }
      }
    case SetAt(index, item) =>
    case RemoveAt(index) =>
      var s' := ApplySpec(s, step).state;
      if 0 <= index < |s| {
        forall i | 0 <= i < |s'|
          ensures s'[i].slot == Pending || (s'[i].slot == Created(ProviderInstance) && IsSeedType(s'[i].serviceType))
        {
          if i >= index {
            assert s'[i] == s[i + 1];
          }
        }
      }
    case RemoveDescriptor(item) =>
      var s' := ApplySpec(s, step).state;
      if ContainsSpec(s, item.serviceType) {
        var k := IndexOfSpec(s, item.serviceType);
        forall i | 0 <= i < |s'|
          ensures s'[i].slot == Pending || (s'[i].slot == Created(ProviderInstance) && IsSeedType(s'[i].serviceType))
        {
          if i < k {
            assert s'[i] == s'[..k][i] == s[..k][i];
          } else {
            assert s'[i] == s'[k..][i - k] == s[k + 1..][i - k];
          }
        }
      }
    case ClearAll =>
  }

  /** A whole callback run on a fresh registry leaves only the seeds created. */
  lemma {:induction false} ConfigureKeepsOnlySeedsCreated(s: State, steps: seq<Registration>)
    requires OnlySeedsCreated(s)
    ensures OnlySeedsCreated(ConfigureSpec(s, steps).state)
    decreases |steps|
  {
    if |steps| > 0 {
      var c := ApplySpec(s, steps[0]);
      ApplyKeepsOnlySeedsCreated(s, steps[0]);
      if c.result.Ok? {
        ConfigureKeepsOnlySeedsCreated(c.state, steps[1..]);
      }
    }
  }

  /**
   * A service registered by the callback never resolves: when the first entry
   * with `t`'s full name is not one of the seeds, asking the configured
   * registry for `t` fails. (The entry is pending, and reading a pending entry
   * runs a factory whose result is not a mock.)
   */
  lemma ConfiguredServiceNeverResolves(env: Env, steps: seq<Registration>, t: TypeRef, fuel: nat)
    requires FindByFullName(ConfigureSpec(SeedState(), steps).state, t).Some?
    requires t.fullName != ServiceProviderType.fullName && t.fullName != ServiceCollectionType.fullName
    ensures GetServiceSpec(env, ConfigureSpec(SeedState(), steps).state, t, fuel).result.Err?
  {
    var s := ConfigureSpec(SeedState(), steps).state;
    ConfigureKeepsOnlySeedsCreated(SeedState(), steps);
    var i := FindByFullName(s, t).value;
    assert s[i].serviceType.fullName == t.fullName;
    UncreatedEntryNeverResolves(env, s, t, fuel);
  }
}
