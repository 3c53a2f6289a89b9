/**
 * Service resolution as functions of the registry's list: the recursion
 * GetService -> CreateMock -> GetConstructorParameters -> GetService, and
 * the first read of a lazy slot, whose factory calls back into CreateMock.
 *
 * The source has no cycle guard; `fuel` bounds the depth of nested
 * GetService calls made for constructor parameters, and running out of it
 * (the source's stack overflow) is the error `DepthExceeded`.
 */
module Resolution {
  import opened Reflection
  import opened Registry

  /** The result of an operation together with the list it leaves behind. */
  datatype Step<T> = Step(result: Outcome<T>, state: State)

  /** Reading a descriptor's lazy value: the result, the list afterwards and the descriptor's own slot afterwards. */
  datatype ReadStep = ReadStep(result: Outcome<Held>, state: State, slot: Slot)

  /** Sets the slot of the entry at `at`, if the descriptor sits in the list. */
  function SetSlotAt(s: State, at: Option<nat>, v: Slot): State
  {
    if at.Some? && at.value < |s| then s[at.value := s[at.value].(slot := v)] else s
  }

  /** The descriptor with type `t` and slot `slot` sits at `at` in `s` (when `at` is Some). */
  predicate PlacedAt(s: State, t: TypeRef, slot: Slot, at: Option<nat>)
  {
    at.Some? ==> at.value < |s| && s[at.value] == EntryView(t, slot)
  }

  /** Puts the values already computed in front of the values of a later step; a failure stays as it is. */
  function Prepend<T>(xs: seq<T>, st: Step<seq<T>>): (r: Step<seq<T>>)
    ensures xs == [] ==> r == st
  {
    match st.result
    case Err(_) => st
    case Ok(ys) =>
      assert xs == [] ==> xs + ys == ys;
      Step(Ok(xs + ys), st.state)
  }

  lemma PrependTwice<T>(a: seq<T>, b: seq<T>, st: Step<seq<T>>)
    ensures Prepend(a, Prepend(b, st)) == Prepend(a + b, st)
  {
    if st.result.Ok? {
      assert a + (b + st.result.value) == (a + b) + st.result.value;
    }
  }

  lemma EvolvesTransitive(s1: State, s2: State, s3: State)
    requires Evolves(s1, s2) && Evolves(s2, s3)
    ensures Evolves(s1, s3)
  {
  }

  /** `GetService(t)`: `CreateMock(t).Instance`. */
  function GetServiceSpec(env: Env, s: State, t: TypeRef, fuel: nat): (r: Step<Value>)
    ensures Evolves(s, r.state)
    decreases fuel, 4, 0
  {
    var c := CreateMockSpec(env, s, t, fuel);
    match c.result
    case Err(e) => Step(Err(e), c.state)
    case Ok(i) =>
      var v := ReadValueSpec(env, c.state, c.state[i].serviceType, c.state[i].slot, Some(i), fuel);
      EvolvesTransitive(s, c.state, v.state);
      Step(if v.result.Err? then Err(v.result.error) else ObjectOf(env, v.result.value), v.state)
  }

  /**
   * The lazy slot's `Value`: a created slot answers what it holds, a faulted
   * one rethrows, a running one is a re-entrant read. A pending slot runs its
   * factory, `CreateMock(serviceType)` on the owning registry, whose result is a
   * descriptor rather than a mock, so the read fails and the slot keeps the failure.
   */
  function ReadValueSpec(env: Env, s: State, t: TypeRef, slot: Slot, at: Option<nat>, fuel: nat): (r: ReadStep)
    requires PlacedAt(s, t, slot, at)
    ensures Evolves(s, r.state)
    ensures PlacedAt(r.state, t, r.slot, at)
    ensures slot.Created? ==> r == ReadStep(Ok(slot.held), s, slot)
    ensures !slot.Created? ==> r.result.Err? && !r.slot.Created?
    decreases fuel, 3, 0
  {
    match slot
    case Created(h) => ReadStep(Ok(h), s, slot)
    case Faulted(e) => ReadStep(Err(e), s, slot)
    case Running => ReadStep(Err(RecursiveLazyAccess), s, slot)
    case Pending =>
      var s1 := SetSlotAt(s, at, Running);
      var c := CreateMockSpec(env, s1, t, fuel);
      var e := if c.result.Err? then c.result.error else FactoryResultNotMock;
      var s2 := SetSlotAt(c.state, at, Faulted(e));
      EvolvesTransitive(s, s1, c.state);
      EvolvesTransitive(s, c.state, s2);
      ReadStep(Err(e), s2, Faulted(e))
  }

  /** `CreateMock(t)`: the constructor arguments are resolved first, then `CreateMock(t, args)`. */
  function CreateMockSpec(env: Env, s: State, t: TypeRef, fuel: nat): (r: Step<nat>)
    ensures Evolves(s, r.state)
    ensures r.result.Ok? ==> FindByFullName(r.state, t) == Some(r.result.value)
    decreases fuel, 2, 0
  {
    var a := CtorArgsSpec(env, s, t, fuel);
    match a.result
    case Err(e) => Step(Err(e), a.state)
    case Ok(args) =>
      var p := CreateMockWithSpec(env, a.state, t, args);
      EvolvesTransitive(s, a.state, p.state);
      Step(Ok(p.index), p.state)
  }

  /**
   * `CreateMock(t, args)`: the first entry with `t`'s full name when there is
   * one (created or not: `Add` finds it), otherwise a new created entry for
   * `t` holding a mock built from `args`. It never replaces or duplicates an entry.
   */
  function CreateMockWithSpec(env: Env, s: State, t: TypeRef, args: seq<Value>): (r: Placed)
    ensures Evolves(s, r.state)
    ensures FindByFullName(r.state, t) == Some(r.index)
    ensures FindByFullName(s, t).Some? ==> r == Placed(FindByFullName(s, t).value, s)
    ensures FindByFullName(s, t).None? ==>
              r == Placed(|s|, s + [EntryView(t, Created(Build(env, t, args)))])
  {
    var found := FindByFullName(s, t);
    if found.Some? && s[found.value].slot.Created? then Placed(found.value, s)
    else AddSpec(s, t, Build(env, t, args))
  }

  /**
   * `GetConstructorParameters(t)`: no arguments when no constructor qualifies
   * or the chosen one is parameterless; otherwise one resolved value per
   * parameter of the first qualifying constructor.
   */
  function CtorArgsSpec(env: Env, s: State, t: TypeRef, fuel: nat): (r: Step<seq<Value>>)
    ensures Evolves(s, r.state)
    ensures var ctors := env.reflect(t).ctors;
            var k := SelectConstructor(s, ctors);
            (k.None? || |ctors[k.value].params| == 0) ==> r == Step(Ok([]), s)
    ensures var ctors := env.reflect(t).ctors;
            var k := SelectConstructor(s, ctors);
            r.result.Ok? && k.Some? ==> |r.result.value| == |ctors[k.value].params|
    decreases fuel, 1, 0
  {
    var ctors := env.reflect(t).ctors;
    match SelectConstructor(s, ctors)
    case None => Step(Ok([]), s)
    case Some(k) =>
      if |ctors[k].params| == 0 then Step(Ok([]), s)
      else ResolveParamsSpec(env, s, ctors[k].params, fuel)
  }

  /** `parameters.Select(p => GetService(p.ParameterType)).ToArray()`: left to right, the first failure propagates. */
  function ResolveParamsSpec(env: Env, s: State, ps: seq<Param>, fuel: nat): (r: Step<seq<Value>>)
    ensures Evolves(s, r.state)
    ensures r.result.Ok? ==> |r.result.value| == |ps|
    decreases fuel, 0, |ps|
  {
    if |ps| == 0 then Step(Ok([]), s)
    else if fuel == 0 then Step(Err(DepthExceeded), s)
    else
      var g := GetServiceSpec(env, s, ps[0].paramType, fuel - 1);
      match g.result
      case Err(e) => Step(Err(e), g.state)
      case Ok(v) =>
        var rest := ResolveParamsSpec(env, g.state, ps[1..], fuel);
        EvolvesTransitive(s, g.state, rest.state);
        match rest.result
        case Err(e) => Step(Err(e), rest.state)
        case Ok(vs) => Step(Ok([v] + vs), rest.state)
  }

  // ---------------------------------------------------------------------
  // What resolution promises.
  // ---------------------------------------------------------------------

  /**
   * An entry that is not created never resolves: when the first entry with
   * `t`'s full name is uncreated (for instance one added through the
   * IServiceCollection view), `GetService(t)` fails whatever else is registered.
   */
  lemma UncreatedEntryNeverResolves(env: Env, s: State, t: TypeRef, fuel: nat)
    requires FindByFullName(s, t).Some?
    requires !s[FindByFullName(s, t).value].slot.Created?
    ensures GetServiceSpec(env, s, t, fuel).result.Err?
  {
    var i := FindByFullName(s, t).value;
    var a := CtorArgsSpec(env, s, t, fuel);
    if a.result.Ok? {
      EvolvesKeepsFirst(s, a.state, t);
      assert !a.state[i].slot.Created?;
      var p := CreateMockWithSpec(env, a.state, t, a.result.value);
      assert p == Placed(i, a.state);
    }
  }

  /**
   * A created entry is reused: once the constructor arguments resolve,
   * `GetService(t)` answers the `Object` of what the first entry with `t`'s
   * full name already holds, and the list is left as argument resolution left it.
   */
  lemma CreatedEntryIsReused(env: Env, s: State, t: TypeRef, fuel: nat, h: Held)
    requires FindByFullName(s, t).Some?
    requires s[FindByFullName(s, t).value].slot == Created(h)
    ensures var a := CtorArgsSpec(env, s, t, fuel);
            GetServiceSpec(env, s, t, fuel) ==
              if a.result.Err? then Step(Err(a.result.error), a.state) else Step(ObjectOf(env, h), a.state)
  {
    var i := FindByFullName(s, t).value;
    var a := CtorArgsSpec(env, s, t, fuel);
    if a.result.Ok? {
      EvolvesKeepsFirst(s, a.state, t);
      assert a.state[i].slot == Created(h);
      var c := CreateMockSpec(env, s, t, fuel);
      assert c == Step(Ok(i), a.state);
    }
  }

  /**
   * A type with no entry of its full name gets exactly one new entry: after
   * argument resolution, the mock built from those arguments is appended as a
   * created entry for `t` and its `Object` is the answer.
   */
  lemma UnknownTypeGetsOneEntry(env: Env, s: State, t: TypeRef, fuel: nat)
    requires CtorArgsSpec(env, s, t, fuel).result.Ok?
    requires FindByFullName(CtorArgsSpec(env, s, t, fuel).state, t).None?
    ensures var a := CtorArgsSpec(env, s, t, fuel);
            var h := Build(env, t, a.result.value);
            GetServiceSpec(env, s, t, fuel) ==
              Step(ObjectOf(env, h), a.state + [EntryView(t, Created(h))])
  {
    var a := CtorArgsSpec(env, s, t, fuel);
    var h := Build(env, t, a.result.value);
    var c := CreateMockSpec(env, s, t, fuel);
    assert c == Step(Ok(|a.state|), a.state + [EntryView(t, Created(h))]);
  }

  /**
   * The seed entries answer for the registry itself: asking a fresh registry
   * for IServiceProvider or IServiceCollection (interfaces, so without
   * constructors) returns the registry and changes nothing.
   */
  lemma SeedsResolveToProvider(env: Env, t: TypeRef, fuel: nat)
    requires t == ServiceProviderType || t == ServiceCollectionType
    requires env.reflect(t).ctors == []
    ensures GetServiceSpec(env, SeedState(), t, fuel) == Step(Ok(SelfProvider), SeedState())
  {
    var s := SeedState();
    assert FindByFullName(s, t).Some?;
    CreatedEntryIsReused(env, s, t, fuel, ProviderInstance);
  }

  /**
   * `Clear` does not re-seed: on an emptied registry IServiceProvider is no
   * longer the registry itself but a newly built mock, added as the only entry.
   */
  lemma ClearedRegistryMocksProvider(env: Env, fuel: nat)
    requires env.reflect(ServiceProviderType).ctors == []
    ensures var h := Build(env, ServiceProviderType, []);
            GetServiceSpec(env, [], ServiceProviderType, fuel) ==
              Step(ObjectOf(env, h), [EntryView(ServiceProviderType, Created(h))])
  {
    UnknownTypeGetsOneEntry(env, [], ServiceProviderType, fuel);
  }
}
