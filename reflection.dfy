/**
 * The world the registry lives in, with reflection and the mocking library
 * abstracted away: types are plain records, the mock library is a set of
 * opaque functions carried by an `Env`.
 */
module Reflection {

  datatype Option<T> = None | Some(value: T)

  /** Every way an operation of the model can fail (an exception in the source). */
  datatype Error =
    | NullReference                   // a member access on a null mock
    | FactoryResultNotMock            // the lazy factory produced a descriptor, not a mock
    | RecursiveLazyAccess             // a lazy slot read again while its factory runs
    | DepthExceeded                   // resolution recursed deeper than the fuel allows
    | ArgumentOutOfRange              // a positional list operation with a bad index
    | VerificationFailed(message: string)
    | AssertionFailed(message: string)

  datatype Outcome<T> = Ok(value: T) | Err(error: Error)

  /**
   * A runtime type. Identity (`==` on `Type` in the source) is equality of the
   * whole record; `fullName` and `name` (the short name) are compared on their
   * own where the source compares names.
   */
  datatype TypeRef = TypeRef(assembly: string, fullName: string, name: string)

  /** A constructor or method parameter; `attributes` are the types of its custom attributes. */
  datatype Param = Param(name: string, paramType: TypeRef, attributes: seq<TypeRef>)

  /** A public constructor; reflection names every constructor ".ctor". */
  datatype Ctor = Ctor(params: seq<Param>)

  /** A public method, as returned by `GetMethods`. */
  datatype MethodInfo = MethodInfo(name: string, params: seq<Param>)

  /**
   * What reflection reports about a type: `GetConstructors`, `GetMethods`,
   * `GetInterfaces` (all implemented interfaces) and the chain of base classes
   * (`IsSubclassOf(b)` holds exactly for the `b` in `baseTypes`).
   */
  datatype TypeShape = TypeShape(
    isInterface: bool,
    ctors: seq<Ctor>,
    methods: seq<MethodInfo>,
    interfaces: seq<TypeRef>,
    baseTypes: seq<TypeRef>)

  /** An object handed out by the registry: null, the registry itself, or some other object. */
  datatype Value = Null | SelfProvider | Object(id: nat)

  /** A mock built by the mocking library: a `Mock<target>`, told apart from others by `tag`. */
  datatype Mock = Mock(target: TypeRef, tag: nat)

  /** What a created lazy slot holds: a null mock, a mock, or (for the two seed entries) the registry. */
  datatype Held = NullMock | MockOf(mock: Mock) | ProviderInstance

  datatype Lifetime = Singleton | Scoped | Transient

  /** The parts of a `ServiceDescriptor` the registry reads. */
  datatype ServiceDescriptor = ServiceDescriptor(serviceType: TypeRef, implementationType: TypeRef, lifetime: Lifetime)

  /**
   * The foreign capabilities: reflection, `Activator.CreateInstance` of `Mock<T>`
   * with an argument list (None is a null result), `Mock.Object`, `Mock.Verify`
   * (Some(message) is a failed verification) and the `FromServicesAttribute`
   * type as linked into the start-up test.
   */
  datatype Env = Env(
    reflect: TypeRef -> TypeShape,
    build: (TypeRef, seq<Value>) -> Option<nat>,
    objectOf: Mock -> Value,
    verify: Mock -> Option<string>,
    fromServices: TypeRef)

  const ServiceProviderType := TypeRef("System.ComponentModel", "System.IServiceProvider", "IServiceProvider")
  const ServiceCollectionType := TypeRef("Microsoft.Extensions.DependencyInjection.Abstractions",
    "Microsoft.Extensions.DependencyInjection.IServiceCollection", "IServiceCollection")
  const CtorMemberName := ".ctor"
  const FromServicesFullName := "Microsoft.AspNetCore.Mvc.FromServicesAttribute"

  /** `Activator.CreateInstance(typeof(Mock<>).MakeGenericType(t), args) as Mock`. */
  function Build(env: Env, t: TypeRef, args: seq<Value>): (h: Held)
    ensures h.MockOf? ==> h.mock.target == t
    ensures h.NullMock? <==> env.build(t, args).None?
  {
    match env.build(t, args)
    case None => NullMock
    case Some(tag) => MockOf(Mock(t, tag))
  }

  /** The `Object` of a held mock; the seed entries hand out the registry itself. */
  function ObjectOf(env: Env, h: Held): (r: Outcome<Value>)
    ensures r.Err? <==> h.NullMock?
    ensures h.ProviderInstance? ==> r == Ok(SelfProvider)
  {
    match h
    case NullMock => Err(NullReference)
    case MockOf(m) => Ok(env.objectOf(m))
    case ProviderInstance => Ok(SelfProvider)
  }
}
