/**
 * The scan both registration checkers run over a configured registry: every
 * parameter of every public constructor of every candidate type, then every
 * `[FromServices]` parameter of every public method, each asked of the
 * registry with `GetService`. IocTesting records a null answer and goes on;
 * StartupTest's `Assert.IsNotNull` stops at the first one.
 */
module Scanning {
  import opened Reflection
  import opened Registry
  import opened Resolution
  import opened Provider

  /**
   * A probed parameter: the candidate type, the member's name (".ctor" for a
   * constructor) and the parameter. It is also what IocTesting records for a
   * parameter that probes null (its `MissingTypeRegistration`).
   */
  datatype Probe = Probe(candidate: TypeRef, member: string, parameter: Param)
  {
    /** `<type full name> -> <member name> -> <parameter name>`, also the start-up check's assertion message. */
    function ToString(): (r: string)
      ensures |r| == |candidate.fullName| + |member| + |parameter.name| + 8
      ensures r[..|candidate.fullName|] == candidate.fullName
      ensures r[|candidate.fullName|..|candidate.fullName| + 4] == " -> "
      ensures r[|candidate.fullName| + 4..|candidate.fullName| + 4 + |member|] == member
      ensures r[|r| - |parameter.name| - 4..|r| - |parameter.name|] == " -> "
      ensures r[|r| - |parameter.name|..] == parameter.name
    {
      candidate.fullName + " -> " + member + " -> " + parameter.name
    }
  }

  /** How a method parameter is recognised as `[FromServices]`. */
  datatype Marking =
    | ByFullName    // an attribute whose own type has the full name of FromServicesAttribute
    | ByAssignment  // an attribute that is a FromServicesAttribute: the linked type or a subclass of it

  predicate Marked(env: Env, marking: Marking, p: Param)
  {
    match marking
    case ByFullName => exists a :: a in p.attributes && a.fullName == FromServicesFullName
    case ByAssignment =>
      exists a :: a in p.attributes && (a == env.fromServices || env.fromServices in env.reflect(a).baseTypes)
  }

  /** `parameters.Where(marked)`, in parameter order. */
  function MarkedParams(env: Env, marking: Marking, ps: seq<Param>): (r: seq<Param>)
    ensures |r| <= |ps|
  {
    if |ps| == 0 then []
    else (if Marked(env, marking, ps[0]) then [ps[0]] else []) + MarkedParams(env, marking, ps[1..])
  }

  /** The parameters kept are exactly the marked ones. */
  lemma {:induction false} MarkedParamsExactly(env: Env, marking: Marking, ps: seq<Param>, p: Param)
    ensures p in MarkedParams(env, marking, ps) <==> p in ps && Marked(env, marking, p)
    decreases |ps|
  {
    if |ps| > 0 {
      MarkedParamsExactly(env, marking, ps[1..], p);
      if p in ps && p != ps[0] {
        assert p in ps[1..];
      }
    }
  }

  /** `MarkedParams` keeps parameter order. */
  lemma {:induction false} MarkedParamsAppend(env: Env, marking: Marking, a: seq<Param>, b: seq<Param>)
    ensures MarkedParams(env, marking, a + b) == MarkedParams(env, marking, a) + MarkedParams(env, marking, b)
    decreases |a|
  {
    if |a| == 0 {
      assert a + b == b;
    } else {
      assert (a + b)[0] == a[0] && (a + b)[1..] == a[1..] + b;
      MarkedParamsAppend(env, marking, a[1..], b);
    }
  }

  /** A single parameter is kept exactly when it is marked. */
  lemma MarkedParamsOne(env: Env, marking: Marking, p: Param)
    ensures MarkedParams(env, marking, [p]) == if Marked(env, marking, p) then [p] else []
  {
    assert [p][1..] == [];
  }

  /** The probes of one member's parameters, in parameter order. */
  function ParamProbes(candidate: TypeRef, member: string, ps: seq<Param>): (r: seq<Probe>)
    ensures |r| == |ps|
    ensures forall i :: 0 <= i < |ps| ==> r[i] == Probe(candidate, member, ps[i])
  {
    if |ps| == 0 then [] else [Probe(candidate, member, ps[0])] + ParamProbes(candidate, member, ps[1..])
  }

  /** The probes of every constructor, in declaration order. */
  function CtorProbes(candidate: TypeRef, cs: seq<Ctor>): seq<Probe>
  {
    if |cs| == 0 then [] else ParamProbes(candidate, CtorMemberName, cs[0].params) + CtorProbes(candidate, cs[1..])
  }

  /** The probes of every method's marked parameters, in declaration order. */
  function MethodProbes(env: Env, marking: Marking, candidate: TypeRef, ms: seq<MethodInfo>): seq<Probe>
  {
    if |ms| == 0 then []
    else ParamProbes(candidate, ms[0].name, MarkedParams(env, marking, ms[0].params))
         + MethodProbes(env, marking, candidate, ms[1..])
  }

  /** One candidate: constructors first, then methods. */
  function TypeProbes(env: Env, marking: Marking, t: TypeRef): seq<Probe>
  {
    CtorProbes(t, env.reflect(t).ctors) + MethodProbes(env, marking, t, env.reflect(t).methods)
  }

  /** Every candidate, in candidate order. */
  function Probes(env: Env, marking: Marking, ts: seq<TypeRef>): seq<Probe>
  {
    if |ts| == 0 then [] else TypeProbes(env, marking, ts[0]) + Probes(env, marking, ts[1..])
  }

  /** `pr` is one of the parameters the scan over `ts` must probe. */
  predicate IsProbeOf(env: Env, marking: Marking, ts: seq<TypeRef>, pr: Probe)
  {
    && pr.candidate in ts
    && (|| (pr.member == CtorMemberName &&
            exists c :: c in env.reflect(pr.candidate).ctors && pr.parameter in c.params)
        || (exists m :: m in env.reflect(pr.candidate).methods && m.name == pr.member &&
                        pr.parameter in m.params && Marked(env, marking, pr.parameter)))
  }

  lemma {:induction false} InCtorProbes(t: TypeRef, cs: seq<Ctor>, pr: Probe)
    ensures pr in CtorProbes(t, cs) <==>
              pr.candidate == t && pr.member == CtorMemberName && exists c :: c in cs && pr.parameter in c.params
    decreases |cs|
  {
    if |cs| > 0 {
      InCtorProbes(t, cs[1..], pr);
      var head := ParamProbes(t, CtorMemberName, cs[0].params);
      if pr in head {
        var i :| 0 <= i < |head| && head[i] == pr;
        assert pr.parameter == cs[0].params[i];
      }
      if pr.candidate == t && pr.member == CtorMemberName && pr.parameter in cs[0].params {
        var i :| 0 <= i < |cs[0].params| && cs[0].params[i] == pr.parameter;
        assert head[i] == pr;
      }
      if pr.candidate == t && pr.member == CtorMemberName {
        if c :| c in cs && pr.parameter in c.params {
          if c != cs[0] {
            assert c in cs[1..];
          }
        }
      }
    }
  }

  lemma {:induction false} InMethodProbes(env: Env, marking: Marking, t: TypeRef, ms: seq<MethodInfo>, pr: Probe)
    ensures pr in MethodProbes(env, marking, t, ms) <==>
              pr.candidate == t &&
              exists m :: m in ms && m.name == pr.member && pr.parameter in m.params && Marked(env, marking, pr.parameter)
    decreases |ms|
  {
    if |ms| > 0 {
      InMethodProbes(env, marking, t, ms[1..], pr);
      var marked := MarkedParams(env, marking, ms[0].params);
      MarkedParamsExactly(env, marking, ms[0].params, pr.parameter);
      var head := ParamProbes(t, ms[0].name, marked);
      if pr in head {
        var i :| 0 <= i < |head| && head[i] == pr;
        assert pr.parameter == marked[i];
      }
      if pr.candidate == t && pr.member == ms[0].name && pr.parameter in marked {
        var i :| 0 <= i < |marked| && marked[i] == pr.parameter;
        assert head[i] == pr;
      }
      if pr.candidate == t {
        if m :| m in ms && m.name == pr.member && pr.parameter in m.params && Marked(env, marking, pr.parameter) {
          if m != ms[0] {
            assert m in ms[1..];
          }
        }
      }
    }
  }

  /**
   * The scan probes exactly the constructor parameters and the marked method
   * parameters of the candidates: nothing is skipped and an unmarked method
   * parameter is never probed.
   */
  lemma {:induction false} ProbesAreExactly(env: Env, marking: Marking, ts: seq<TypeRef>, pr: Probe)
    ensures pr in Probes(env, marking, ts) <==> IsProbeOf(env, marking, ts, pr)
    decreases |ts|
  {
    if |ts| > 0 {
      ProbesAreExactly(env, marking, ts[1..], pr);
      InCtorProbes(ts[0], env.reflect(ts[0]).ctors, pr);
      InMethodProbes(env, marking, ts[0], env.reflect(ts[0]).methods, pr);
      if pr.candidate in ts && pr.candidate != ts[0] {
        assert pr.candidate in ts[1..];
      }
    }
  }

  lemma {:induction false} ParamProbesAppend(candidate: TypeRef, member: string, a: seq<Param>, b: seq<Param>)
    ensures ParamProbes(candidate, member, a + b) == ParamProbes(candidate, member, a) + ParamProbes(candidate, member, b)
    decreases |a|
  {
    if |a| > 0 {
      assert (a + b)[0] == a[0] && (a + b)[1..] == a[1..] + b;
      ParamProbesAppend(candidate, member, a[1..], b);
    } else {
      assert a + b == b;
    }
  }

  /** The first `i + 1` parameters' probes are the first `i`'s, then parameter `i`'s. */
  lemma ParamProbesAt(candidate: TypeRef, member: string, ps: seq<Param>, i: nat)
    requires i < |ps|
    ensures ParamProbes(candidate, member, ps[..i + 1]) == ParamProbes(candidate, member, ps[..i]) + [Probe(candidate, member, ps[i])]
    ensures ParamProbes(candidate, member, ps)
            == ParamProbes(candidate, member, ps[..i + 1]) + ParamProbes(candidate, member, ps[i + 1..])
  {
    assert ps[..i + 1] == ps[..i] + [ps[i]];
    ParamProbesAppend(candidate, member, ps[..i], [ps[i]]);
    assert ps == ps[..i + 1] + ps[i + 1..];
    ParamProbesAppend(candidate, member, ps[..i + 1], ps[i + 1..]);
  }

  lemma {:induction false} CtorProbesAppend(t: TypeRef, a: seq<Ctor>, b: seq<Ctor>)
    ensures CtorProbes(t, a + b) == CtorProbes(t, a) + CtorProbes(t, b)
    decreases |a|
  {
    if |a| > 0 {
      assert (a + b)[0] == a[0] && (a + b)[1..] == a[1..] + b;
      CtorProbesAppend(t, a[1..], b);
    } else {
      assert a + b == b;
    }
  }

  /** The first `j + 1` constructors' probes are the first `j`'s, then constructor `j`'s parameters. */
  lemma CtorProbesAt(t: TypeRef, cs: seq<Ctor>, j: nat)
    requires j < |cs|
    ensures CtorProbes(t, cs[..j + 1]) == CtorProbes(t, cs[..j]) + ParamProbes(t, CtorMemberName, cs[j].params)
    ensures CtorProbes(t, cs) == CtorProbes(t, cs[..j + 1]) + CtorProbes(t, cs[j + 1..])
  {
    assert cs[..j + 1] == cs[..j] + [cs[j]];
    CtorProbesAppend(t, cs[..j], [cs[j]]);
    var own := ParamProbes(t, CtorMemberName, cs[j].params);
    assert CtorProbes(t, [cs[j]]) == own by {
      assert [cs[j]][1..] == [];
      assert own + [] == own;
    }
    assert cs == cs[..j + 1] + cs[j + 1..];
    CtorProbesAppend(t, cs[..j + 1], cs[j + 1..]);
  }

  lemma {:induction false} MethodProbesAppend(env: Env, marking: Marking, t: TypeRef, a: seq<MethodInfo>, b: seq<MethodInfo>)
    ensures MethodProbes(env, marking, t, a + b) == MethodProbes(env, marking, t, a) + MethodProbes(env, marking, t, b)
    decreases |a|
  {
    if |a| > 0 {
      assert (a + b)[0] == a[0] && (a + b)[1..] == a[1..] + b;
      MethodProbesAppend(env, marking, t, a[1..], b);
    } else {
      assert a + b == b;
    }
  }

  /** The first `j + 1` methods' probes are the first `j`'s, then method `j`'s marked parameters. */
  lemma MethodProbesAt(env: Env, marking: Marking, t: TypeRef, ms: seq<MethodInfo>, j: nat)
    requires j < |ms|
    ensures MethodProbes(env, marking, t, ms[..j + 1])
            == MethodProbes(env, marking, t, ms[..j]) + ParamProbes(t, ms[j].name, MarkedParams(env, marking, ms[j].params))
    ensures MethodProbes(env, marking, t, ms)
            == MethodProbes(env, marking, t, ms[..j + 1]) + MethodProbes(env, marking, t, ms[j + 1..])
  {
    assert ms[..j + 1] == ms[..j] + [ms[j]];
    MethodProbesAppend(env, marking, t, ms[..j], [ms[j]]);
    MethodProbesOne(env, marking, t, ms[j]);
    assert ms == ms[..j + 1] + ms[j + 1..];
    MethodProbesAppend(env, marking, t, ms[..j + 1], ms[j + 1..]);
  }

  lemma MethodProbesOne(env: Env, marking: Marking, t: TypeRef, m: MethodInfo)
    ensures MethodProbes(env, marking, t, [m]) == ParamProbes(t, m.name, MarkedParams(env, marking, m.params))
  {
    assert [m][1..] == [];
    var own := ParamProbes(t, m.name, MarkedParams(env, marking, m.params));
    assert own + [] == own;
  }

  lemma {:induction false} ProbesAppend(env: Env, marking: Marking, a: seq<TypeRef>, b: seq<TypeRef>)
    ensures Probes(env, marking, a + b) == Probes(env, marking, a) + Probes(env, marking, b)
    decreases |a|
  {
    if |a| > 0 {
      assert (a + b)[0] == a[0] && (a + b)[1..] == a[1..] + b;
      ProbesAppend(env, marking, a[1..], b);
    } else {
      assert a + b == b;
    }
  }

  /** The first `k + 1` candidates' probes are the first `k`'s, then candidate `k`'s. */
  lemma ProbesAt(env: Env, marking: Marking, ts: seq<TypeRef>, k: nat)
    requires k < |ts|
    ensures Probes(env, marking, ts[..k + 1]) == Probes(env, marking, ts[..k]) + TypeProbes(env, marking, ts[k])
    ensures Probes(env, marking, ts) == Probes(env, marking, ts[..k + 1]) + Probes(env, marking, ts[k + 1..])
  {
    assert ts[..k + 1] == ts[..k] + [ts[k]];
    ProbesAppend(env, marking, ts[..k], [ts[k]]);
    var own := TypeProbes(env, marking, ts[k]);
    assert Probes(env, marking, [ts[k]]) == own by {
      assert [ts[k]][1..] == [];
      assert own + [] == own;
    }
    assert ts == ts[..k + 1] + ts[k + 1..];
    ProbesAppend(env, marking, ts[..k + 1], ts[k + 1..]);
  }

  // ---------------------------------------------------------------------
  // The scan itself.
  // ---------------------------------------------------------------------

  /** What a null answer does: IocTesting records it and goes on; StartupTest's assertion fails. */
  datatype Mode = Collect | FailFast

  /**
   * The probes in order, each `GetService(parameter type)` on the registry as
   * the previous probes left it. An exception from `GetService` ends the scan.
   */
  function ScanSpec(env: Env, mode: Mode, s: State, probes: seq<Probe>, fuel: nat): (r: Step<seq<Probe>>)
    ensures r.result.Ok? ==> |r.result.value| <= |probes|
    ensures mode == FailFast && r.result.Ok? ==> r.result.value == []
    decreases |probes|, 1
  {
    if |probes| == 0 then Step(Ok([]), s) else ScanFrom(env, mode, s, probes, fuel)
  }

  /** A scan with at least one probe: the first probe, then the scan of the rest. */
  function ScanFrom(env: Env, mode: Mode, s: State, probes: seq<Probe>, fuel: nat): (r: Step<seq<Probe>>)
    requires |probes| > 0
    ensures r.result.Ok? ==> |r.result.value| <= |probes|
    ensures mode == FailFast && r.result.Ok? ==> r.result.value == []
    decreases |probes|, 0
  {
    var g := GetServiceSpec(env, s, probes[0].parameter.paramType, fuel);
    match g.result
    case Err(e) => Step(Err(e), g.state)
    case Ok(v) =>
      if v == Null && mode == FailFast then Step(Err(AssertionFailed(probes[0].ToString())), g.state)
      else Prepend(if v == Null then [probes[0]] else [], ScanSpec(env, mode, g.state, probes[1..], fuel))
  }

  /** Every finding of a scan is one of its probes. */
  lemma {:induction false} ScanFindsOnlyProbes(env: Env, mode: Mode, s: State, probes: seq<Probe>, fuel: nat, f: Probe)
    ensures var r := ScanSpec(env, mode, s, probes, fuel);
            r.result.Ok? && f in r.result.value ==> f in probes
    decreases |probes|
  {
    if |probes| > 0 {
      var g := GetServiceSpec(env, s, probes[0].parameter.paramType, fuel);
      if g.result.Ok? {
        ScanFindsOnlyProbes(env, mode, g.state, probes[1..], fuel, f);
        var rest := ScanSpec(env, mode, g.state, probes[1..], fuel);
        if rest.result.Ok? && f in rest.result.value {
          assert f in probes[1..];
        }
      }
    }
  }

  /** Scanning `a + b` is scanning `a`, then `b` on the registry `a` left behind. */
  lemma {:induction false} ScanConcat(env: Env, mode: Mode, s: State, a: seq<Probe>, b: seq<Probe>, fuel: nat)
    ensures var first := ScanSpec(env, mode, s, a, fuel);
            ScanSpec(env, mode, s, a + b, fuel) ==
              if first.result.Err? then first else Prepend(first.result.value, ScanSpec(env, mode, first.state, b, fuel))
    decreases |a|
  {
    if |a| == 0 {
      assert a + b == b;
    } else {
      assert (a + b)[0] == a[0] && (a + b)[1..] == a[1..] + b;
      var g := GetServiceSpec(env, s, a[0].parameter.paramType, fuel);
      if g.result.Ok? && !(g.result.value == Null && mode == FailFast) {
        ScanConcat(env, mode, g.state, a[1..], b, fuel);
        var head: seq<Probe> := if g.result.value == Null then [a[0]] else [];
        var rest := ScanSpec(env, mode, g.state, a[1..], fuel);
        if rest.result.Ok? {
          PrependTwice(head, rest.result.value, ScanSpec(env, mode, rest.state, b, fuel));
        }
      }
    }
  }

  /** A scan that got as far as `done` with the findings `missing`, extended by `next`. */
  lemma ScanGrows(env: Env, mode: Mode, s0: State, done: seq<Probe>, next: seq<Probe>, fuel: nat,
                  missing: seq<Probe>, s1: State, r: Outcome<seq<Probe>>, s2: State)
    requires ScanSpec(env, mode, s0, done, fuel) == Step(Ok(missing), s1)
    requires ScanSpec(env, mode, s1, next, fuel) == Step(r, s2)
    ensures r.Ok? ==> ScanSpec(env, mode, s0, done + next, fuel) == Step(Ok(missing + r.value), s2)
    ensures r.Err? ==> ScanSpec(env, mode, s0, done + next, fuel) == Step(Err(r.error), s2)
  {
    ScanConcat(env, mode, s0, done, next, fuel);
  }

  /** A scan that failed within `a` fails the same way whatever follows `a`. */
  lemma ScanFailed(env: Env, mode: Mode, s0: State, a: seq<Probe>, b: seq<Probe>, fuel: nat, e: Error, s1: State)
    requires ScanSpec(env, mode, s0, a, fuel) == Step(Err(e), s1)
    ensures ScanSpec(env, mode, s0, a + b, fuel) == Step(Err(e), s1)
  {
    ScanConcat(env, mode, s0, a, b, fuel);
  }

  /**
   * The fail-fast scan fails exactly where the collecting scan records its
   * first finding: it succeeds only when the collecting scan finds nothing,
   * its message renders the first finding, and any other failure is the
   * collecting scan's own.
   */
  lemma {:induction false} FailFastStopsAtFirstFinding(env: Env, s: State, probes: seq<Probe>, fuel: nat)
    ensures ScanSpec(env, FailFast, s, probes, fuel).result == Ok([]) <==>
            ScanSpec(env, Collect, s, probes, fuel).result == Ok([])
    ensures var c := ScanSpec(env, Collect, s, probes, fuel);
            c.result.Ok? && c.result.value != [] ==>
              ScanSpec(env, FailFast, s, probes, fuel).result == Err(AssertionFailed(c.result.value[0].ToString()))
    ensures var c := ScanSpec(env, Collect, s, probes, fuel);
            var f := ScanSpec(env, FailFast, s, probes, fuel);
            c.result.Err? ==> f.result == c.result || f.result.error.AssertionFailed?
    decreases |probes|
  {
    if |probes| > 0 {
      var g := GetServiceSpec(env, s, probes[0].parameter.paramType, fuel);
      if g.result.Ok? {
        FailFastStopsAtFirstFinding(env, g.state, probes[1..], fuel);
      }
    }
  }

  // ---------------------------------------------------------------------
  // The scan on a registry object.
  // ---------------------------------------------------------------------

  /** One probe: `GetService(p.ParameterType)`, then the null check. */
  method ProbeOne(p: MockProvider, env: Env, mode: Mode, probe: Probe, fuel: nat) returns (r: Outcome<seq<Probe>>)
    requires p.Valid()
    modifies p, p.Repr
    ensures p.Valid()
    ensures fresh(p.Repr - old(p.Repr))
    ensures Step(r, p.Snapshot()) == ScanSpec(env, mode, old(p.Snapshot()), [probe], fuel)
  {
    ghost var s := p.Snapshot();
    var v := p.GetService(env, probe.parameter.paramType, fuel);
    ghost var g := GetServiceSpec(env, s, probe.parameter.paramType, fuel);
    assert Step(v, p.Snapshot()) == g;
    assert [probe][0] == probe && [probe][1..] == [];
    assert ScanSpec(env, mode, g.state, [], fuel) == Step(Ok([]), g.state);
    if v.Err? {
      r := Err(v.error);
    } else if v.value == Null && mode == FailFast {
      r := Err(AssertionFailed(probe.ToString()));
    } else if v.value == Null {
      r := Ok([probe]);
      assert [probe] + [] == [probe];
    } else {
      r := Ok([]);
    }
  }

  /** Parameter `i` of one member: the scan so far, grown by its probe. */
  method ProbeParamAt(p: MockProvider, env: Env, mode: Mode, candidate: TypeRef, member: string, ps: seq<Param>,
                      i: nat, fuel: nat, ghost s0: State, ghost missing: seq<Probe>)
    returns (r: Outcome<seq<Probe>>)
    requires p.Valid() && i < |ps|
    requires ScanSpec(env, mode, s0, ParamProbes(candidate, member, ps[..i]), fuel) == Step(Ok(missing), p.Snapshot())
    modifies p, p.Repr
    ensures p.Valid()
    ensures fresh(p.Repr - old(p.Repr))
    ensures r.Err? ==> ScanSpec(env, mode, s0, ParamProbes(candidate, member, ps), fuel) == Step(Err(r.error), p.Snapshot())
    ensures r.Ok? ==> ScanSpec(env, mode, s0, ParamProbes(candidate, member, ps[..i + 1]), fuel)
                      == Step(Ok(missing + r.value), p.Snapshot())
  {
    ghost var s := p.Snapshot();
    var probe := Probe(candidate, member, ps[i]);
    r := ProbeOne(p, env, mode, probe, fuel);
    ParamProbesAt(candidate, member, ps, i);
    ScanGrows(env, mode, s0, ParamProbes(candidate, member, ps[..i]), [probe], fuel, missing, s, r, p.Snapshot());
    if r.Err? {
      ScanFailed(env, mode, s0, ParamProbes(candidate, member, ps[..i + 1]), ParamProbes(candidate, member, ps[i + 1..]),
                 fuel, r.error, p.Snapshot());
    }
  }

  /** `foreach (var p in parameters)`: each parameter of one member. */
  method ProbeParams(p: MockProvider, env: Env, mode: Mode, candidate: TypeRef, member: string, ps: seq<Param>, fuel: nat)
    returns (r: Outcome<seq<Probe>>)
    requires p.Valid()
    modifies p, p.Repr
    ensures p.Valid()
    ensures fresh(p.Repr - old(p.Repr))
    ensures Step(r, p.Snapshot()) == ScanSpec(env, mode, old(p.Snapshot()), ParamProbes(candidate, member, ps), fuel)
  {
    ghost var s0 := p.Snapshot();
    var missing: seq<Probe> := [];
    var i := 0;
    assert ParamProbes(candidate, member, ps[..0]) == [];
    while i < |ps|
      invariant 0 <= i <= |ps|
      invariant p.Valid()
      invariant fresh(p.Repr - old(p.Repr))
      invariant ScanSpec(env, mode, s0, ParamProbes(candidate, member, ps[..i]), fuel) == Step(Ok(missing), p.Snapshot())
    {
      var found := ProbeParamAt(p, env, mode, candidate, member, ps, i, fuel, s0, missing);
      if found.Err? {
        return Err(found.error);
      }
      missing := missing + found.value;
      i := i + 1;
    }
    assert ps[..i] == ps;
    r := Ok(missing);
  }

  /** Constructor `j`: the scan so far, grown by the probes of its parameters. */
  method ProbeConstructorAt(p: MockProvider, env: Env, mode: Mode, t: TypeRef, cs: seq<Ctor>, j: nat, fuel: nat,
                            ghost s0: State, ghost missing: seq<Probe>)
    returns (r: Outcome<seq<Probe>>)
    requires p.Valid() && j < |cs|
    requires ScanSpec(env, mode, s0, CtorProbes(t, cs[..j]), fuel) == Step(Ok(missing), p.Snapshot())
    modifies p, p.Repr
    ensures p.Valid()
    ensures fresh(p.Repr - old(p.Repr))
    ensures r.Err? ==> ScanSpec(env, mode, s0, CtorProbes(t, cs), fuel) == Step(Err(r.error), p.Snapshot())
    ensures r.Ok? ==> ScanSpec(env, mode, s0, CtorProbes(t, cs[..j + 1]), fuel) == Step(Ok(missing + r.value), p.Snapshot())
  {
    ghost var s := p.Snapshot();
    r := ProbeParams(p, env, mode, t, CtorMemberName, cs[j].params, fuel);
    CtorProbesAt(t, cs, j);
    ScanGrows(env, mode, s0, CtorProbes(t, cs[..j]), ParamProbes(t, CtorMemberName, cs[j].params), fuel,
              missing, s, r, p.Snapshot());
    if r.Err? {
      ScanFailed(env, mode, s0, CtorProbes(t, cs[..j + 1]), CtorProbes(t, cs[j + 1..]), fuel, r.error, p.Snapshot());
    }
  }

  /** `foreach (var c in t.GetConstructors())`: every parameter of every constructor. */
  method ProbeConstructors(p: MockProvider, env: Env, mode: Mode, t: TypeRef, cs: seq<Ctor>, fuel: nat)
    returns (r: Outcome<seq<Probe>>)
    requires p.Valid()
    modifies p, p.Repr
    ensures p.Valid()
    ensures fresh(p.Repr - old(p.Repr))
    ensures Step(r, p.Snapshot()) == ScanSpec(env, mode, old(p.Snapshot()), CtorProbes(t, cs), fuel)
  {
    ghost var s0 := p.Snapshot();
    var missing: seq<Probe> := [];
    var j := 0;
    assert CtorProbes(t, cs[..0]) == [];
    while j < |cs|
      invariant 0 <= j <= |cs|
      invariant p.Valid()
      invariant fresh(p.Repr - old(p.Repr))
      invariant ScanSpec(env, mode, s0, CtorProbes(t, cs[..j]), fuel) == Step(Ok(missing), p.Snapshot())
    {
      var found := ProbeConstructorAt(p, env, mode, t, cs, j, fuel, s0, missing);
      if found.Err? {
        return Err(found.error);
      }
      missing := missing + found.value;
      j := j + 1;
    }
    assert cs[..j] == cs;
    r := Ok(missing);
  }

  /** Method `j`: the scan so far, grown by the probes of its marked parameters. */
  method ProbeMethodAt(p: MockProvider, env: Env, mode: Mode, marking: Marking, t: TypeRef, ms: seq<MethodInfo>,
                       j: nat, fuel: nat, ghost s0: State, ghost missing: seq<Probe>)
    returns (r: Outcome<seq<Probe>>)
    requires p.Valid() && j < |ms|
    requires ScanSpec(env, mode, s0, MethodProbes(env, marking, t, ms[..j]), fuel) == Step(Ok(missing), p.Snapshot())
    modifies p, p.Repr
    ensures p.Valid()
    ensures fresh(p.Repr - old(p.Repr))
    ensures r.Err? ==> ScanSpec(env, mode, s0, MethodProbes(env, marking, t, ms), fuel) == Step(Err(r.error), p.Snapshot())
    ensures r.Ok? ==> ScanSpec(env, mode, s0, MethodProbes(env, marking, t, ms[..j + 1]), fuel)
                      == Step(Ok(missing + r.value), p.Snapshot())
  {
    ghost var s := p.Snapshot();
    var parameters := MarkedParams(env, marking, ms[j].params);
    r := ProbeParams(p, env, mode, t, ms[j].name, parameters, fuel);
    MethodProbesAt(env, marking, t, ms, j);
    ScanGrows(env, mode, s0, MethodProbes(env, marking, t, ms[..j]), ParamProbes(t, ms[j].name, parameters), fuel,
              missing, s, r, p.Snapshot());
    if r.Err? {
      ScanFailed(env, mode, s0, MethodProbes(env, marking, t, ms[..j + 1]), MethodProbes(env, marking, t, ms[j + 1..]),
                 fuel, r.error, p.Snapshot());
    }
  }

  /** `foreach (var m in t.GetMethods())`: every marked parameter of every method. */
  method ProbeMethods(p: MockProvider, env: Env, mode: Mode, marking: Marking, t: TypeRef, ms: seq<MethodInfo>, fuel: nat)
    returns (r: Outcome<seq<Probe>>)
    requires p.Valid()
    modifies p, p.Repr
    ensures p.Valid()
    ensures fresh(p.Repr - old(p.Repr))
    ensures Step(r, p.Snapshot()) == ScanSpec(env, mode, old(p.Snapshot()), MethodProbes(env, marking, t, ms), fuel)
  {
    ghost var s0 := p.Snapshot();
    var missing: seq<Probe> := [];
    var j := 0;
    assert MethodProbes(env, marking, t, ms[..0]) == [];
    while j < |ms|
      invariant 0 <= j <= |ms|
      invariant p.Valid()
      invariant fresh(p.Repr - old(p.Repr))
      invariant ScanSpec(env, mode, s0, MethodProbes(env, marking, t, ms[..j]), fuel) == Step(Ok(missing), p.Snapshot())
    {
      var found := ProbeMethodAt(p, env, mode, marking, t, ms, j, fuel, s0, missing);
      if found.Err? {
        return Err(found.error);
      }
      missing := missing + found.value;
      j := j + 1;
    }
    assert ms[..j] == ms;
    r := Ok(missing);
  }

  /** One candidate: its constructors, then its methods. */
  method ProbeType(p: MockProvider, env: Env, mode: Mode, marking: Marking, t: TypeRef, fuel: nat)
    returns (r: Outcome<seq<Probe>>)
    requires p.Valid()
    modifies p, p.Repr
    ensures p.Valid()
    ensures fresh(p.Repr - old(p.Repr))
    ensures Step(r, p.Snapshot()) == ScanSpec(env, mode, old(p.Snapshot()), TypeProbes(env, marking, t), fuel)
  {
    ghost var s := p.Snapshot();
    ghost var ctors := CtorProbes(t, env.reflect(t).ctors);
    ghost var methods := MethodProbes(env, marking, t, env.reflect(t).methods);
    var found := ProbeConstructors(p, env, mode, t, env.reflect(t).ctors, fuel);
    if found.Err? {
      ScanFailed(env, mode, s, ctors, methods, fuel, found.error, p.Snapshot());
      return Err(found.error);
    }
    ghost var s1 := p.Snapshot();
    var more := ProbeMethods(p, env, mode, marking, t, env.reflect(t).methods, fuel);
    ScanGrows(env, mode, s, ctors, methods, fuel, found.value, s1, more, p.Snapshot());
    if more.Err? {
      return Err(more.error);
    }
    r := Ok(found.value + more.value);
  }

  /** Candidate `k`: the scan so far, grown by its probes. */
  method ProbeTypeAt(p: MockProvider, env: Env, mode: Mode, marking: Marking, ts: seq<TypeRef>, k: nat, fuel: nat,
                     ghost s0: State, ghost missing: seq<Probe>)
    returns (r: Outcome<seq<Probe>>)
    requires p.Valid() && k < |ts|
    requires ScanSpec(env, mode, s0, Probes(env, marking, ts[..k]), fuel) == Step(Ok(missing), p.Snapshot())
    modifies p, p.Repr
    ensures p.Valid()
    ensures fresh(p.Repr - old(p.Repr))
    ensures r.Err? ==> ScanSpec(env, mode, s0, Probes(env, marking, ts), fuel) == Step(Err(r.error), p.Snapshot())
    ensures r.Ok? ==> ScanSpec(env, mode, s0, Probes(env, marking, ts[..k + 1]), fuel) == Step(Ok(missing + r.value), p.Snapshot())
  {
    ghost var s := p.Snapshot();
    r := ProbeType(p, env, mode, marking, ts[k], fuel);
    ProbesAt(env, marking, ts, k);
    ScanGrows(env, mode, s0, Probes(env, marking, ts[..k]), TypeProbes(env, marking, ts[k]), fuel, missing, s, r, p.Snapshot());
    if r.Err? {
      ScanFailed(env, mode, s0, Probes(env, marking, ts[..k + 1]), Probes(env, marking, ts[k + 1..]), fuel, r.error, p.Snapshot());
    }
  }

  /** `foreach (var t in types)`: every candidate in order. */
  method ProbeTypes(p: MockProvider, env: Env, mode: Mode, marking: Marking, ts: seq<TypeRef>, fuel: nat)
    returns (r: Outcome<seq<Probe>>)
    requires p.Valid()
    modifies p, p.Repr
    ensures p.Valid()
    ensures Step(r, p.Snapshot()) == ScanSpec(env, mode, old(p.Snapshot()), Probes(env, marking, ts), fuel)
  {
    ghost var s0 := p.Snapshot();
    var missing: seq<Probe> := [];
    var k := 0;
    assert Probes(env, marking, ts[..0]) == [];
    while k < |ts|
      invariant 0 <= k <= |ts|
      invariant p.Valid()
      invariant fresh(p.Repr - old(p.Repr))
      invariant ScanSpec(env, mode, s0, Probes(env, marking, ts[..k]), fuel) == Step(Ok(missing), p.Snapshot())
    {
      var found := ProbeTypeAt(p, env, mode, marking, ts, k, fuel, s0, missing);
      if found.Err? {
        return Err(found.error);
      }
      missing := missing + found.value;
      k := k + 1;
    }
    assert ts[..k] == ts;
    r := Ok(missing);
  }
}
