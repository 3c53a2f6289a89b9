/**
 * `StartupTest.TestIocConfiguration<TBase>`: the same scan as IocTesting, with
 * its own choice of candidates and of `[FromServices]` parameters, and an
 * `Assert.IsNotNull` that stops at the first null answer.
 */
module StartupTest {
  import opened Reflection
  import opened Registry
  import opened Resolution
  import opened Provider
  import opened Configuration
  import opened Scanning
  import opened IocTesting

  /** `asm.GetTypes().Where(x => x.GetInterfaces().Contains(tBase))`, in assembly order. */
  function FromInterface(env: Env, types: seq<TypeRef>, tBase: TypeRef): (r: seq<TypeRef>)
    ensures |r| <= |types|
    ensures forall x :: x in r <==> x in types && tBase in env.reflect(x).interfaces
  {
    if |types| == 0 then []
    else (if tBase in env.reflect(types[0]).interfaces then [types[0]] else []) + FromInterface(env, types[1..], tBase)
  }

  /** `asm.GetTypes().Where(x => x.IsSubclassOf(tBase))`, in assembly order. */
  function FromClass(env: Env, types: seq<TypeRef>, tBase: TypeRef): (r: seq<TypeRef>)
    ensures |r| <= |types|
    ensures forall x :: x in r <==> x in types && tBase in env.reflect(x).baseTypes
  {
    if |types| == 0 then []
    else (if tBase in env.reflect(types[0]).baseTypes then [types[0]] else []) + FromClass(env, types[1..], tBase)
  }

  /** `FromInterface` keeps assembly order. */
  lemma {:induction false} FromInterfaceAppend(env: Env, a: seq<TypeRef>, b: seq<TypeRef>, tBase: TypeRef)
    ensures FromInterface(env, a + b, tBase) == FromInterface(env, a, tBase) + FromInterface(env, b, tBase)
    decreases |a|
  {
    if |a| == 0 {
      assert a + b == b;
    } else {
      assert (a + b)[0] == a[0] && (a + b)[1..] == a[1..] + b;
      FromInterfaceAppend(env, a[1..], b, tBase);
    }
  }

  /** A single type is kept exactly when it implements `tBase`. */
  lemma FromInterfaceOne(env: Env, x: TypeRef, tBase: TypeRef)
    ensures FromInterface(env, [x], tBase) == if tBase in env.reflect(x).interfaces then [x] else []
  {
    assert [x][1..] == [];
  }

  /** `FromClass` keeps assembly order. */
  lemma {:induction false} FromClassAppend(env: Env, a: seq<TypeRef>, b: seq<TypeRef>, tBase: TypeRef)
    ensures FromClass(env, a + b, tBase) == FromClass(env, a, tBase) + FromClass(env, b, tBase)
    decreases |a|
  {
    if |a| == 0 {
      assert a + b == b;
    } else {
      assert (a + b)[0] == a[0] && (a + b)[1..] == a[1..] + b;
      FromClassAppend(env, a[1..], b, tBase);
    }
  }

  /** A single type is kept exactly when it derives from `tBase`. */
  lemma FromClassOne(env: Env, x: TypeRef, tBase: TypeRef)
    ensures FromClass(env, [x], tBase) == if tBase in env.reflect(x).baseTypes then [x] else []
  {
    assert [x][1..] == [];
  }

  /** `tBase.IsInterface ? FromInterface(asm, tBase) : FromClass(asm, tBase)`. */
  function StartupCandidates(env: Env, types: seq<TypeRef>, tBase: TypeRef): (r: seq<TypeRef>)
    ensures forall x :: x in r ==> x in Candidates(env, types, tBase)
    ensures env.reflect(tBase).isInterface ==> r == FromInterface(env, types, tBase)
    ensures !env.reflect(tBase).isInterface ==> r == FromClass(env, types, tBase)
    ensures tBase !in env.reflect(tBase).interfaces && tBase !in env.reflect(tBase).baseTypes ==> tBase !in r
  {
    if env.reflect(tBase).isInterface then FromInterface(env, types, tBase) else FromClass(env, types, tBase)
  }

  /**
   * The candidates are chosen from the assembly declaring the callback, the
   * callback runs once on a fresh registry, then every probe runs in scan
   * order; the first null answer fails with its rendering as the message.
   */
  function TestIocSpec(env: Env, callback: Callback, tBase: TypeRef, fuel: nat): Outcome<()>
  {
    var types := StartupCandidates(env, callback.declaringAssembly, tBase);
    var c := ConfigureSpec(SeedState(), callback.steps);
    if c.result.Err? then Err(c.result.error)
    else
      match ScanSpec(env, FailFast, c.state, Probes(env, ByAssignment, types), fuel).result
      case Err(e) => Err(e)
      case Ok(_) => Ok(())
  }

  /** `TestIocConfiguration<TBase>(configureServices)`. */
  method TestIocConfiguration(env: Env, callback: Callback, tBase: TypeRef, fuel: nat) returns (r: Outcome<()>)
    ensures r == TestIocSpec(env, callback, tBase, fuel)
  {
    var mocks := new MockProvider();
    var types := StartupCandidates(env, callback.declaringAssembly, tBase);
    var c := Configure(mocks, callback.steps);
    if c.Err? {
      return Err(c.error);
    }
    var found := ProbeTypes(mocks, env, FailFast, ByAssignment, types, fuel);
    if found.Err? {
      return Err(found.error);
    }
    r := Ok(());
  }

  /**
   * The start-up check passes exactly when a collecting scan over the same
   * candidates and parameters would find nothing missing, and when that scan
   * does find something, the check fails with the first finding's rendering.
   */
  lemma PassesIffNothingMissing(env: Env, callback: Callback, tBase: TypeRef, fuel: nat)
    ensures var c := ConfigureSpec(SeedState(), callback.steps);
            var probes := Probes(env, ByAssignment, StartupCandidates(env, callback.declaringAssembly, tBase));
            && (TestIocSpec(env, callback, tBase, fuel) == Ok(()) <==>
                  c.result.Ok? && ScanSpec(env, Collect, c.state, probes, fuel).result == Ok([]))
            && (c.result.Ok? ==>
                  var fs := ScanSpec(env, Collect, c.state, probes, fuel).result;
                  fs.Ok? && fs.value != [] ==>
                    TestIocSpec(env, callback, tBase, fuel) == Err(AssertionFailed(fs.value[0].ToString())))
  {
    var c := ConfigureSpec(SeedState(), callback.steps);
    if c.result.Ok? {
      var probes := Probes(env, ByAssignment, StartupCandidates(env, callback.declaringAssembly, tBase));
      FailFastStopsAtFirstFinding(env, c.state, probes, fuel);
    }
  }
}
