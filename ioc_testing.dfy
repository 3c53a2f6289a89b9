/**
 * `IocTesting.FindMissingRegistrations<TBase>`: every parameter a candidate
 * type's constructors or `[FromServices]` method parameters need, asked of a
 * registry the callback configured; the ones that come back null are listed.
 */
module IocTesting {
  import opened Reflection
  import opened Registry
  import opened Resolution
  import opened Provider
  import opened Configuration
  import opened Scanning

  /** `MissingTypeRegistration(type, method, parameter)`: the probe whose answer was null. */
  type MissingTypeRegistration = Probe

  /** `tBase.IsAssignableFrom(x)`: `x` is `tBase`, implements it, or derives from it. */
  predicate IsAssignableFrom(env: Env, tBase: TypeRef, x: TypeRef)
  {
    x == tBase || tBase in env.reflect(x).interfaces || tBase in env.reflect(x).baseTypes
  }

  /** `asm.GetTypes().Where(x => tBase.IsAssignableFrom(x))`, in assembly order. */
  function Candidates(env: Env, types: seq<TypeRef>, tBase: TypeRef): (r: seq<TypeRef>)
    ensures |r| <= |types|
    ensures forall x :: x in r <==> x in types && IsAssignableFrom(env, tBase, x)
  {
    if |types| == 0 then []
    else (if IsAssignableFrom(env, tBase, types[0]) then [types[0]] else []) + Candidates(env, types[1..], tBase)
  }

  /** Filtering keeps assembly order: the candidates of two runs of types, one after the other. */
  lemma {:induction false} CandidatesAppend(env: Env, a: seq<TypeRef>, b: seq<TypeRef>, tBase: TypeRef)
    ensures Candidates(env, a + b, tBase) == Candidates(env, a, tBase) + Candidates(env, b, tBase)
    decreases |a|
  {
    if |a| == 0 {
      assert a + b == b;
    } else {
      assert (a + b)[0] == a[0] && (a + b)[1..] == a[1..] + b;
      CandidatesAppend(env, a[1..], b, tBase);
    }
  }

  /** A single type is kept exactly when `tBase` is assignable from it. */
  lemma CandidatesOne(env: Env, x: TypeRef, tBase: TypeRef)
    ensures Candidates(env, [x], tBase) == if IsAssignableFrom(env, tBase, x) then [x] else []
  {
    assert [x][1..] == [];
  }

  /** `asm ?? configureServices.Method.DeclaringType.Assembly`. */
  function AssemblyOf(callback: Callback, asm: Option<seq<TypeRef>>): seq<TypeRef>
  {
    if asm.Some? then asm.value else callback.declaringAssembly
  }

  /**
   * The candidates are chosen, the callback runs once on a fresh registry,
   * then every probe runs in scan order and each null answer is recorded.
   * An exception from the callback or from a probe ends the whole call.
   */
  function FindMissingSpec(env: Env, callback: Callback, asm: Option<seq<TypeRef>>, tBase: TypeRef, fuel: nat)
    : Outcome<seq<MissingTypeRegistration>>
  {
    var types := Candidates(env, AssemblyOf(callback, asm), tBase);
    var c := ConfigureSpec(SeedState(), callback.steps);
    if c.result.Err? then Err(c.result.error)
    else ScanSpec(env, Collect, c.state, Probes(env, ByFullName, types), fuel).result
  }

  /** `FindMissingRegistrations<TBase>(configureServices, asm)`. */
  method FindMissingRegistrations(env: Env, callback: Callback, asm: Option<seq<TypeRef>>, tBase: TypeRef, fuel: nat)
    returns (r: Outcome<seq<MissingTypeRegistration>>)
    ensures r == FindMissingSpec(env, callback, asm, tBase, fuel)
  {
    var mocks := new MockProvider();
    var types := Candidates(env, AssemblyOf(callback, asm), tBase);
    var c := Configure(mocks, callback.steps);
    if c.Err? {
      return Err(c.error);
    }
    r := ProbeTypes(mocks, env, Collect, ByFullName, types, fuel);
  }

  /**
   * Every finding is a probe the scan owes: a candidate assignable to `tBase`
   * from the chosen assembly, and either a constructor parameter or a method
   * parameter carrying an attribute with FromServicesAttribute's full name.
   */
  lemma FindingsAreOwedProbes(env: Env, callback: Callback, asm: Option<seq<TypeRef>>, tBase: TypeRef, fuel: nat)
    ensures var r := FindMissingSpec(env, callback, asm, tBase, fuel);
            r.Ok? ==> forall f :: f in r.value ==>
              && f.candidate in AssemblyOf(callback, asm)
              && IsAssignableFrom(env, tBase, f.candidate)
              && IsProbeOf(env, ByFullName, Candidates(env, AssemblyOf(callback, asm), tBase), f)
  {
    var types := Candidates(env, AssemblyOf(callback, asm), tBase);
    var r := FindMissingSpec(env, callback, asm, tBase, fuel);
    if r.Ok? {
      forall f | f in r.value
        ensures IsProbeOf(env, ByFullName, types, f)
      {
        ScanFindsOnlyProbes(env, Collect, ConfigureSpec(SeedState(), callback.steps).state,
                            Probes(env, ByFullName, types), fuel, f);
        ProbesAreExactly(env, ByFullName, types, f);
      }
    }
  }

  /** A method parameter with no attribute of FromServicesAttribute's full name is never reported. */
  lemma UnmarkedParameterNeverReported(env: Env, callback: Callback, asm: Option<seq<TypeRef>>, tBase: TypeRef,
                                       fuel: nat, f: MissingTypeRegistration)
    requires f.member != CtorMemberName && !Marked(env, ByFullName, f.parameter)
    ensures var r := FindMissingSpec(env, callback, asm, tBase, fuel);
            r.Ok? ==> f !in r.value
  {
    FindingsAreOwedProbes(env, callback, asm, tBase, fuel);
  }
}
