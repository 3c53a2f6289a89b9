/**
 * The registry's list of descriptors as a value, and the list operations of
 * `MockProvider` that do not resolve anything, stated on that value.
 * The imperative classes in module Provider are proved against these.
 */
module Registry {
  import opened Reflection

  /**
   * The `Lazy<Mock>` slot of a descriptor. A slot built with a ready mock is
   * `Created`; one built without starts `Pending`, is `Running` while its
   * factory runs and keeps the factory's failure as `Faulted` (a faulted lazy
   * value rethrows the same exception on every later read).
   */
  datatype Slot = Pending | Running | Faulted(error: Error) | Created(held: Held)

  /** What the registry observes of one descriptor. */
  datatype EntryView = EntryView(serviceType: TypeRef, slot: Slot)

  type State = seq<EntryView>

  /** The two seed entries of a fresh registry, both holding the registry itself. */
  function SeedState(): (s: State)
    ensures |s| == 2
    ensures s[0].serviceType == ServiceProviderType && s[1].serviceType == ServiceCollectionType
    ensures forall i :: 0 <= i < |s| ==> s[i].slot == Created(ProviderInstance)
  {
    [EntryView(ServiceProviderType, Created(ProviderInstance)),
     EntryView(ServiceCollectionType, Created(ProviderInstance))]
  }

  // ---------------------------------------------------------------------
  // The three ways the source compares types, kept apart.
  // ---------------------------------------------------------------------

  /** First entry whose service type has `t`'s full name (`FirstOrDefault` on `FullName`). */
  function FindByFullName(s: State, t: TypeRef): (r: Option<nat>)
    ensures r.Some? ==> r.value < |s| && s[r.value].serviceType.fullName == t.fullName
    ensures r.Some? ==> forall j :: 0 <= j < r.value ==> s[j].serviceType.fullName != t.fullName
    ensures r.None? <==> forall j :: 0 <= j < |s| ==> s[j].serviceType.fullName != t.fullName
  {
    if |s| == 0 then None
    else if s[0].serviceType.fullName == t.fullName then Some(0)
    else
      match FindByFullName(s[1..], t)
      case None => None
      case Some(k) => Some(k + 1)
  }

  /** First entry whose service type IS `t` (`FirstOrDefault` on `ServiceType ==`). */
  function FirstOfType(s: State, t: TypeRef): (r: Option<nat>)
    ensures r.Some? ==> r.value < |s| && s[r.value].serviceType == t
    ensures r.Some? ==> forall j :: 0 <= j < r.value ==> s[j].serviceType != t
    ensures r.None? <==> forall j :: 0 <= j < |s| ==> s[j].serviceType != t
  {
    if |s| == 0 then None
    else if s[0].serviceType == t then Some(0)
    else
      match FirstOfType(s[1..], t)
      case None => None
      case Some(k) => Some(k + 1)
  }

  /** Some entry's service type has short name `n` (`_mocks.Any(x => x.ServiceType.Name == n)`). */
  predicate HasShortName(s: State, n: string)
  {
    exists i :: 0 <= i < |s| && s[i].serviceType.name == n
  }

  /** A constructor the registry can serve: parameterless, or every parameter type's short name is registered. */
  predicate Qualifies(s: State, c: Ctor)
  {
    |c.params| == 0 || forall k :: 0 <= k < |c.params| ==> HasShortName(s, c.params[k].paramType.name)
  }

  /** The constructor `GetConstructorParameters` picks: the first, in declaration order, that qualifies. */
  function SelectConstructor(s: State, ctors: seq<Ctor>): (r: Option<nat>)
    ensures r.Some? ==> r.value < |ctors| && Qualifies(s, ctors[r.value])
    ensures r.Some? ==> forall j :: 0 <= j < r.value ==> !Qualifies(s, ctors[j])
    ensures r.None? <==> forall j :: 0 <= j < |ctors| ==> !Qualifies(s, ctors[j])
  {
    if |ctors| == 0 then None
    else if Qualifies(s, ctors[0]) then Some(0)
    else
      match SelectConstructor(s, ctors[1..])
      case None => None
      case Some(k) => Some(k + 1)
  }

  // ---------------------------------------------------------------------
  // Add(Type, Mock) and the constructor that adds a list of mocks.
  // ---------------------------------------------------------------------

  /** Where an operation put (or found) its descriptor, and the list afterwards. */
  datatype Placed = Placed(index: nat, state: State)

  /** `Add(t, mock)`: the first entry with `t`'s full name, or a new created entry appended for `t`. */
  function AddSpec(s: State, t: TypeRef, h: Held): (r: Placed)
    ensures r.index < |r.state| && r.state[r.index].serviceType.fullName == t.fullName
    ensures FindByFullName(r.state, t) == Some(r.index)
    ensures FindByFullName(s, t).Some? ==> r.state == s
    ensures FindByFullName(s, t).None? ==>
              r.state == s + [EntryView(t, Created(h))] && r.index == |s|
  {
    match FindByFullName(s, t)
    case Some(i) => Placed(i, s)
    case None =>
      var s' := s + [EntryView(t, Created(h))];
      assert s'[|s|].serviceType.fullName == t.fullName;
      Placed(|s|, s')
  }

  /** The `MockProvider(IEnumerable<Mock>)` loop: each mock added under its generic argument, in order. */
  function AddAllSpec(s: State, mocks: seq<Mock>): (r: State)
    ensures s <= r && |r| <= |s| + |mocks|
    ensures forall i :: |s| <= i < |r| ==> r[i].slot.Created?
    decreases |mocks|
  {
    if |mocks| == 0 then s
    else AddAllSpec(AddSpec(s, mocks[0].target, MockOf(mocks[0])).state, mocks[1..])
  }

  /** The index of the first mock in `mocks` whose target has full name `n`. */
  function FirstMockNamed(mocks: seq<Mock>, n: string): (r: Option<nat>)
    ensures r.Some? ==> r.value < |mocks| && mocks[r.value].target.fullName == n
    ensures r.Some? ==> forall j :: 0 <= j < r.value ==> mocks[j].target.fullName != n
    ensures r.None? <==> forall j :: 0 <= j < |mocks| ==> mocks[j].target.fullName != n
  {
    if |mocks| == 0 then None
    else if mocks[0].target.fullName == n then Some(0)
    else
      match FirstMockNamed(mocks[1..], n)
      case None => None
      case Some(k) => Some(k + 1)
  }

  /**
   * Adding several mocks keeps what was there and appends one entry per new
   * full name; for a full name not already registered the entry holds the
   * FIRST mock with that name, and later ones add no entry of their own.
   */
  lemma FirstMockWins(s: State, mocks: seq<Mock>, t: TypeRef)
    requires FindByFullName(s, t).None?
    ensures var r := AddAllSpec(s, mocks);
            |s| <= |r| && r[..|s|] == s &&
            match FirstMockNamed(mocks, t.fullName)
            case None => FindByFullName(r, t).None?
            case Some(j) => FindByFullName(r, t).Some? &&
                            r[FindByFullName(r, t).value] == EntryView(mocks[j].target, Created(MockOf(mocks[j])))
    ensures var r := AddAllSpec(s, mocks);
            forall j :: |s| <= j < |r| && r[j].serviceType.fullName == t.fullName ==> j == FindByFullName(r, t).value
  {
    FirstMockHeld(s, mocks, t);
    AddAllOnePerName(s, mocks, t);
  }

  /** For a full name not already registered, the first lookup after adding finds the first mock with that name. */
  lemma {:induction false} FirstMockHeld(s: State, mocks: seq<Mock>, t: TypeRef)
    requires FindByFullName(s, t).None?
    ensures var r := AddAllSpec(s, mocks);
            |s| <= |r| && r[..|s|] == s &&
            match FirstMockNamed(mocks, t.fullName)
            case None => FindByFullName(r, t).None?
            case Some(j) => FindByFullName(r, t).Some? &&
                            r[FindByFullName(r, t).value] == EntryView(mocks[j].target, Created(MockOf(mocks[j])))
    decreases |mocks|
  {
    AddAllKeeps(s, mocks);
    if |mocks| > 0 {
      var m := mocks[0];
      if m.target.fullName == t.fullName {
        FirstMockAppended(s, mocks, t);
      } else {
        var p := AddSpec(s, m.target, MockOf(m));
        if FindByFullName(s, m.target).None? {
          AppendOtherName(s, EntryView(m.target, Created(MockOf(m))), t);
        }
        assert AddAllSpec(s, mocks) == AddAllSpec(p.state, mocks[1..]);
        FirstMockHeld(p.state, mocks[1..], t);
        FirstMockNamedSkips(mocks, t.fullName);
      }
    }
  }

  /** Past a first mock of another name, the first mock named `n` is one further on. */
  lemma FirstMockNamedSkips(mocks: seq<Mock>, n: string)
    requires |mocks| > 0 && mocks[0].target.fullName != n
    ensures var sub := FirstMockNamed(mocks[1..], n);
            && FirstMockNamed(mocks, n) == (if sub.Some? then Some(sub.value + 1) else None)
            && (sub.Some? ==> mocks[1..][sub.value] == mocks[sub.value + 1])
  {
  }

  /** The first mock of the list has `t`'s full name: it is appended here, and every later mock with that name is dropped. */
  lemma FirstMockAppended(s: State, mocks: seq<Mock>, t: TypeRef)
    requires FindByFullName(s, t).None?
    requires |mocks| > 0 && mocks[0].target.fullName == t.fullName
    ensures var r := AddAllSpec(s, mocks);
            && |s| <= |r| && r[..|s|] == s
            && FindByFullName(r, t) == Some(|s|)
            && r[|s|] == EntryView(mocks[0].target, Created(MockOf(mocks[0])))
  {
    var m := mocks[0];
    FindDependsOnFullName(s, m.target, t);
    var p := AddSpec(s, m.target, MockOf(m));
    FindDependsOnFullName(p.state, m.target, t);
    AddAllKeeps(p.state, mocks[1..]);
    var r := AddAllSpec(p.state, mocks[1..]);
    FindStaysFirst(p.state, r, t);
    assert r[|s|] == p.state[|s|];
    assert r[..|s|] == p.state[..|s|] == s;
  }

  /**
   * Adding mocks appends at most one entry per full name, and none for a name
   * already listed: an appended entry is always the first of its full name.
   */
  lemma {:induction false} AddAllOnePerName(s: State, mocks: seq<Mock>, t: TypeRef)
    ensures var r := AddAllSpec(s, mocks);
            forall j :: |s| <= j < |r| && r[j].serviceType.fullName == t.fullName ==> FindByFullName(r, t) == Some(j)
    decreases |mocks|
  {
    if |mocks| > 0 {
      var m := mocks[0];
      var p := AddSpec(s, m.target, MockOf(m));
      var r := AddAllSpec(p.state, mocks[1..]);
      assert r == AddAllSpec(s, mocks);
      AddAllOnePerName(p.state, mocks[1..], t);
      AddAllKeeps(p.state, mocks[1..]);
      forall j | |s| <= j < |r| && r[j].serviceType.fullName == t.fullName
        ensures FindByFullName(r, t) == Some(j)
      {
        if j < |p.state| {
          assert p.state != s;
          assert j == |s| && p.index == |s|;
          assert r[j] == r[..|p.state|][j] == p.state[j];
          FindDependsOnFullName(p.state, m.target, t);
          FindStaysFirst(p.state, r, t);
        }
      }
    }
  }

  /** Appending an entry of another full name leaves `t` unregistered. */
  lemma AppendOtherName(s: State, e: EntryView, t: TypeRef)
    requires FindByFullName(s, t).None? && e.serviceType.fullName != t.fullName
    ensures FindByFullName(s + [e], t).None?
  {
    assert forall j :: 0 <= j < |s| ==> (s + [e])[j] == s[j];
  }

  /** Lookup by full name sees nothing of a type but its full name. */
  lemma {:induction false} FindDependsOnFullName(s: State, t: TypeRef, u: TypeRef)
    requires t.fullName == u.fullName
    ensures FindByFullName(s, t) == FindByFullName(s, u)
  {
    if |s| > 0 {
      FindDependsOnFullName(s[1..], t, u);
    }
  }

  /** Adding mocks never changes or removes an entry that is already there. */
  lemma {:induction false} AddAllKeeps(s: State, mocks: seq<Mock>)
    ensures |s| <= |AddAllSpec(s, mocks)| && AddAllSpec(s, mocks)[..|s|] == s
    decreases |mocks|
  {
    if |mocks| > 0 {
      var p := AddSpec(s, mocks[0].target, MockOf(mocks[0]));
      AddAllKeeps(p.state, mocks[1..]);
      assert p.state[..|s|] == s;
    } else {
      assert s[..|s|] == s;
    }
  }

  /** A first full-name match survives any change that keeps the prefix up to it. */
  lemma {:induction false} FindStaysFirst(s: State, s': State, t: TypeRef)
    requires FindByFullName(s, t).Some?
    requires |s| <= |s'| && s'[..|s|] == s
    ensures FindByFullName(s', t) == FindByFullName(s, t)
  {
    var i := FindByFullName(s, t).value;
    assert s'[i] == s'[..|s|][i] == s[i];
    assert forall j :: 0 <= j < i ==> s'[j] == s'[..|s|][j] == s[j];
  }

  // ---------------------------------------------------------------------
  // The IList<ServiceDescriptor> view. Every descriptor these store is a
  // fresh, not yet created auto-mock for the item's service type.
  // ---------------------------------------------------------------------

  /** A fresh `MockDescriptor(serviceType, this)`: uncreated, resolved on first read. */
  function Deferred(t: TypeRef): EntryView
  {
    EntryView(t, Pending)
  }

  /** `IndexOf(item)`: position of the first entry whose service type is the item's, or -1. */
  function IndexOfSpec(s: State, t: TypeRef): (r: int)
    ensures -1 <= r < |s|
    ensures r == -1 <==> forall j :: 0 <= j < |s| ==> s[j].serviceType != t
    ensures r >= 0 ==> s[r].serviceType == t && forall j :: 0 <= j < r ==> s[j].serviceType != t
  {
    match FirstOfType(s, t)
    case None => -1
    case Some(i) => i
  }

  /** `Contains(item)`. */
  predicate ContainsSpec(s: State, t: TypeRef)
  {
    exists j :: 0 <= j < |s| && s[j].serviceType == t
  }

  /** `Contains` is exactly "`IndexOf` is not -1". */
  lemma {:induction false} ContainsIffIndexOf(s: State, t: TypeRef)
    ensures ContainsSpec(s, t) <==> IndexOfSpec(s, t) != -1
  {
    if IndexOfSpec(s, t) != -1 {
      var i := IndexOfSpec(s, t);
      assert s[i].serviceType == t;
    }
  }

  /** `Remove(item)`: deletes the first entry of the item's type and reports whether there was one. */
  function RemoveSpec(s: State, t: TypeRef): (r: (bool, State))
    ensures r.0 <==> ContainsSpec(s, t)
    ensures !r.0 ==> r.1 == s
    ensures r.0 ==> var i := IndexOfSpec(s, t);
                    |r.1| == |s| - 1 && r.1[..i] == s[..i] && r.1[i..] == s[i + 1..]
  {
    ContainsIffIndexOf(s, t);
    var i := IndexOfSpec(s, t);
    if i == -1 then (false, s) else (true, s[..i] + s[i + 1..])
  }

  /** `Insert(index, item)`; an index outside 0..Count throws. */
  function InsertSpec(s: State, index: int, t: TypeRef): (r: (Outcome<()>, State))
    ensures r.0.Ok? <==> 0 <= index <= |s|
    ensures r.0.Err? ==> r.0.error == ArgumentOutOfRange && r.1 == s
    ensures r.0.Ok? ==> |r.1| == |s| + 1 && r.1[index] == Deferred(t)
                        && (forall j :: 0 <= j < index ==> r.1[j] == s[j])
                        && (forall j :: index <= j < |s| ==> r.1[j + 1] == s[j])
  {
    if 0 <= index <= |s| then (Ok(()), s[..index] + [Deferred(t)] + s[index..])
    else (Err(ArgumentOutOfRange), s)
  }

  /** `RemoveAt(index)`; an index outside 0..Count-1 throws. */
  function RemoveAtSpec(s: State, index: int): (r: (Outcome<()>, State))
    ensures r.0.Ok? <==> 0 <= index < |s|
    ensures r.0.Err? ==> r.0.error == ArgumentOutOfRange && r.1 == s
    ensures r.0.Ok? ==> |r.1| == |s| - 1
                        && (forall j :: 0 <= j < index ==> r.1[j] == s[j])
                        && (forall j :: index < j < |s| ==> r.1[j - 1] == s[j])
  {
    if 0 <= index < |s| then
      var rest := s[..index] + s[index + 1..];
      assert forall j :: 0 <= j < index ==> rest[j] == s[j];
      assert forall j :: index < j < |s| ==> rest[j - 1] == s[j];
      (Ok(()), rest)
    else (Err(ArgumentOutOfRange), s)
  }

  /** The indexer's setter: position `index` gets a fresh deferred descriptor for the value's type. */
  function SetAtSpec(s: State, index: int, t: TypeRef): (r: (Outcome<()>, State))
    ensures r.0.Ok? <==> 0 <= index < |s|
    ensures r.0.Err? ==> r.0.error == ArgumentOutOfRange && r.1 == s
    ensures r.0.Ok? ==> |r.1| == |s| && r.1[index] == Deferred(t)
                        && forall j :: 0 <= j < |s| && j != index ==> r.1[j] == s[j]
  {
    if 0 <= index < |s| then (Ok(()), s[index := Deferred(t)])
    else (Err(ArgumentOutOfRange), s)
  }

  // ---------------------------------------------------------------------
  // How the list may evolve while the registry resolves services.
  // ---------------------------------------------------------------------

  /**
   * `s'` is a later state of `s` under resolution: entries are only appended,
   * no service type changes, a created slot keeps exactly what it holds
   * (write-once), an uncreated one never becomes created, and every appended
   * entry is created.
   */
  ghost predicate Evolves(s: State, s': State)
  {
    && |s| <= |s'|
    && (forall i :: 0 <= i < |s| ==> s'[i].serviceType == s[i].serviceType)
    && (forall i :: 0 <= i < |s| && s[i].slot.Created? ==> s'[i].slot == s[i].slot)
    && (forall i :: 0 <= i < |s| && !s[i].slot.Created? ==> !s'[i].slot.Created?)
    && (forall i :: |s| <= i < |s'| ==> s'[i].slot.Created?)
  }

  /** Under evolution the first entry of a full name stays the first. */
  lemma {:induction false} EvolvesKeepsFirst(s: State, s': State, t: TypeRef)
    requires Evolves(s, s')
    requires FindByFullName(s, t).Some?
    ensures FindByFullName(s', t) == FindByFullName(s, t)
  {
    var i := FindByFullName(s, t).value;
    assert s'[i].serviceType == s[i].serviceType;
    assert forall j :: 0 <= j < i ==> s'[j].serviceType == s[j].serviceType;
  }

  // ---------------------------------------------------------------------
  // Verify.
  // ---------------------------------------------------------------------

  /** `MockDescriptor.Verify`: nothing for an uncreated slot; otherwise the held mock is verified. */
  function VerifySlot(env: Env, slot: Slot): (r: Outcome<()>)
    ensures !slot.Created? ==> r == Ok(())
    ensures slot.Created? && slot.held.NullMock? ==> r == Err(NullReference)
    ensures slot.Created? && slot.held.MockOf? ==>
              (r.Ok? <==> env.verify(slot.held.mock).None?)
  {
    match slot
    case Created(NullMock) => Err(NullReference)
    case Created(MockOf(m)) =>
      (match env.verify(m)
       case None => Ok(())
       case Some(msg) => Err(VerificationFailed(msg)))
    case Created(ProviderInstance) => Ok(())
    case _ => Ok(())
  }

  /** `MockProvider.Verify`: every entry in list order; the first failure propagates. */
  function VerifyAllSpec(env: Env, s: State): (r: Outcome<()>)
    ensures r.Ok? <==> forall i :: 0 <= i < |s| ==> VerifySlot(env, s[i].slot).Ok?
  {
    if |s| == 0 then Ok(())
    else
      match VerifySlot(env, s[0].slot)
      case Err(e) => Err(e)
      case Ok(_) =>
        assert forall i :: 1 <= i < |s| ==> s[i] == s[1..][i - 1];
        VerifyAllSpec(env, s[1..])
  }

  /** A failed `Verify` reports the failure of the first entry that fails, and no aggregate. */
  lemma {:induction false} VerifyReportsFirstFailure(env: Env, s: State)
    requires VerifyAllSpec(env, s).Err?
    ensures exists i :: 0 <= i < |s| && VerifySlot(env, s[i].slot) == VerifyAllSpec(env, s)
                        && forall j :: 0 <= j < i ==> VerifySlot(env, s[j].slot).Ok?
  {
    if VerifySlot(env, s[0].slot).Err? {
      assert VerifySlot(env, s[0].slot) == VerifyAllSpec(env, s);
    } else {
      VerifyReportsFirstFailure(env, s[1..]);
      var i :| 0 <= i < |s[1..]| && VerifySlot(env, s[1..][i].slot) == VerifyAllSpec(env, s[1..])
               && forall j :: 0 <= j < i ==> VerifySlot(env, s[1..][j].slot).Ok?;
      assert VerifySlot(env, s[i + 1].slot) == VerifyAllSpec(env, s);
      forall j | 0 <= j < i + 1 ensures VerifySlot(env, s[j].slot).Ok? {
        if j > 0 { assert s[j] == s[1..][j - 1]; }
      }
    }
  }
}
