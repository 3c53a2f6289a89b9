# MockProvider, modelled in Dafny

MockProvider is a small .NET library for testing dependency-injection setups.
Its `MockProvider` class is both an `IServiceProvider` and an
`IServiceCollection`. It keeps an ordered list of `MockDescriptor`s, and each
descriptor holds a lazily created Moq mock. `GetService(t)` never answers
"unknown": it finds or builds a mock of `t`. To build it, the registry picks the
first constructor whose parameter types it can serve and resolves each
parameter recursively. Two checkers are built on this registry:

- `IocTesting.FindMissingRegistrations<TBase>` lists every constructor
  parameter, and every `[FromServices]` method parameter, of the types
  assignable to `TBase` that the configured registry answers with null.
- `StartupTest.TestIocConfiguration<TBase>` asserts, one parameter at a time,
  that none of them is null.

The model has these modules:

- `Reflection`: the world outside the library. Types are records carrying
  their assembly, full name and short name. What reflection says about a type
  (constructors, methods, interfaces, base classes, whether it is an interface)
  is a function in an `Env`. So is what Moq does: build a mock, give its
  `Object`, verify it. Exceptions are the values of `Error`.
- `Registry`: the descriptor list as a value, `seq<EntryView>`, where each
  entry is a service type plus the state of its lazy slot (`Pending`,
  `Running`, `Faulted(e)`, `Created(held)`). The list operations that resolve
  nothing are stated on this value. The source compares types in three ways,
  and the model keeps them apart:
  - `Add` and `CreateMock` compare full names (`FindByFullName`);
  - constructor selection compares short names (`HasShortName`);
  - `IndexOf`, `Contains` and `Remove` compare type identity (`FirstOfType`).
- `Resolution`: the recursion `GetService -> CreateMock -> GetConstructorParameters
  -> GetService` as functions on that value, together with the first read of a
  lazy slot, whose factory calls back into `CreateMock`.
- `Provider`: the two classes, `MockProvider` (a field `entries` that the
  methods reassign) and `MockDescriptor` (a mutable `slot`). A ghost set
  `Repr` holds the registry's descriptors: every listed one is in it, and a
  descriptor that `Set`, `RemoveAt`, `Remove` or `Clear` drops leaves it, so a
  caller still holding it can read it on its own. The methods may change the listed
  descriptors and the registry. Each method is
  proved to do to `Snapshot()`, the list read as a value, exactly what the
  functions of `Registry` and `Resolution` say.
- `Configuration`: the `configureServices` callback. Both checkers hand it the
  registry as an `IServiceCollection`, so it is modelled as a script of list
  calls plus the assembly that declares it.
- `Scanning`: the parameter scan both checkers run. `Mode` selects whether it
  collects null answers or fails at the first one. `Marking` selects how a
  `[FromServices]` parameter is recognised.
- `IocTesting` and `StartupTest`: the two checkers.

Behaviours of the source that the model makes explicit:

- The factory of an auto-created descriptor (MockDescriptor.cs:14) returns
  `CreateMock(serviceType)`, which is a descriptor, where a `Mock` is expected.
  The model runs that call for its effects and then fails with
  `FactoryResultNotMock`. The lazy value keeps that failure, as a faulted .NET
  `Lazy<T>` does.
- So a slot becomes created only when its descriptor is constructed with a
  mock. Entries added through the `IServiceCollection` view (`AddTransient`
  and friends end in `ICollection.Add`) never resolve
  (`Configuration.ConfiguredServiceNeverResolves`).
- It follows that the model does not reproduce the outcome the test at
  MockProviderTests/IocTestingTests.cs:16-17 expects: probing `Foo` after
  `AddTransient<Foo>()` ends in an error, not in an empty list.
- The source has no cycle guard: a type whose constructor needs itself
  recurses until the stack overflows. The model bounds the nesting of
  `GetService` calls with `fuel` and reports `DepthExceeded` when it runs out.
- `Clear` empties the list and does not put back the two seed entries that
  answer for the registry itself (`Resolution.ClearedRegistryMocksProvider`).
- `Verify` stops at the first descriptor whose verification throws
  (`Registry.VerifyReportsFirstFailure`).

## Model

| member | source | states |
|---|---|---|
| Registry.SeedState | MockProvider/MockProvider.cs:12-16 | a fresh registry holds exactly two entries, IServiceProvider then IServiceCollection, both already created and holding the registry |
| Provider.MockProvider.constructor | MockProvider/MockProvider.cs:12-16 | the new registry's list is the two seed entries, and its descriptors are new objects |
| Provider.MockProvider.WithMocks | MockProvider/MockProvider.cs:17-26 | the list is the seeds followed by the mocks added one by one with `Add`, in order |
| Registry.FindByFullName | MockProvider/MockProvider.cs:39 | returns the first entry whose service type has the asked full name, and None exactly when no entry has it |
| Registry.AddSpec | MockProvider/MockProvider.cs:37-46 | an existing entry with the same full name is returned and the list is unchanged; otherwise one created entry holding the mock is appended and returned |
| Provider.MockProvider.Add | MockProvider/MockProvider.cs:37-46 | the list afterwards and the returned descriptor are those of `AddSpec`; existing entries are kept as a prefix |
| Provider.MockProvider.AddMock | MockProvider/MockProvider.cs:32-35 | `Add<T>(mock)` is `Add` under the mock's generic argument |
| Registry.AddAllSpec | MockProvider/MockProvider.cs:19-23 | adding mocks one by one keeps the list as a prefix and appends at most one entry per mock, each of them created |
| Registry.FirstMockWins | MockProvider/MockProvider.cs:17-24 | after adding several mocks, the entry for a full name that was not registered holds the first mock with that name, later mocks with that name add no entry, and earlier entries are kept |
| Registry.AddAllOnePerName | MockProvider/MockProvider.cs:17-24 | adding mocks appends at most one entry per full name and none for a name already listed: every appended entry is the first of its full name |
| Registry.AddAllKeeps | MockProvider/MockProvider.cs:17-24 | adding mocks never changes or removes an entry that is already listed |
| Registry.SelectConstructor | MockProvider/MockProvider.cs:79 | picks the first constructor, in declaration order, that is parameterless or whose parameter types' short names are all registered, and None exactly when none is |
| Provider.QualifiesByRendering | MockProvider/MockDescriptor.cs:34-37 | a descriptor's `ToString` is the short name that constructor selection compares, so a constructor qualifies exactly when each parameter type's short name is the rendering of a listed descriptor |
| Resolution.CtorArgsSpec | MockProvider/MockProvider.cs:77-87 | with no qualifying or a parameterless constructor, the arguments are empty and nothing changes; otherwise one value per parameter of the chosen constructor |
| Resolution.ResolveParamsSpec | MockProvider/MockProvider.cs:83 | on success there is one value per parameter, and the list only evolves (append-only, write-once slots) |
| Provider.MockProvider.GetConstructorParameters | MockProvider/MockProvider.cs:77-87 | the result and the list afterwards are those of `CtorArgsSpec` |
| Provider.MockProvider.ResolveParams | MockProvider/MockProvider.cs:83 | the loop resolves the parameters left to right, stops at the first failure, and agrees with `ResolveParamsSpec` |
| Provider.MockProvider.ResolveAt | MockProvider/MockProvider.cs:83 | one parameter: `GetService` of its type one level deeper, or `DepthExceeded` when no depth is left |
| Resolution.CreateMockWithSpec | MockProvider/MockProvider.cs:62-75 | the first entry with the full name is returned when there is one, and the list is unchanged; otherwise a created entry holding a mock built from the arguments is appended; no entry is ever replaced or duplicated |
| Provider.MockProvider.CreateMockWith | MockProvider/MockProvider.cs:60-75 | the list afterwards and the returned descriptor are those of `CreateMockWithSpec` |
| Resolution.CreateMockSpec | MockProvider/MockProvider.cs:58 | on success the returned index is the first entry with the type's full name, and the list only evolves |
| Provider.MockProvider.CreateMock | MockProvider/MockProvider.cs:58 | the list afterwards and the result, a descriptor or the error, are those of `CreateMockSpec` |
| Provider.AsMockOf | MockProvider/MockProvider.cs:48-56 | `as Mock<U>` gives the held mock exactly when it is a mock whose target is U, and null otherwise; an error passes through unchanged |
| Provider.MockProvider.CreateMockOf | MockProvider/MockProvider.cs:48-51 | `CreateMock<U>(args)` reads the `Mock` of the descriptor `CreateMock(t, args)` gives and casts it with `AsMockOf` |
| Provider.MockProvider.CreateMockAuto | MockProvider/MockProvider.cs:53-56 | `CreateMock<U>()` reads the `Mock` of the descriptor `CreateMock(t)` gives and casts it; an error of `CreateMock` propagates |
| Resolution.GetServiceSpec | MockProvider/MockProvider.cs:29 | the list only evolves: entries are appended and never removed or retyped, and a created slot keeps what it holds |
| Provider.MockProvider.GetService | MockProvider/MockProvider.cs:29 | the answer and the list afterwards are those of `GetServiceSpec` |
| Resolution.UncreatedEntryNeverResolves | MockProvider/MockProvider.cs:62-75 | when the first entry with the type's full name is not created, `GetService` fails, whatever else is registered |
| Resolution.CreatedEntryIsReused | MockProvider/MockProvider.cs:62-75 | when that entry is created, `GetService` answers the `Object` of what it holds and adds no entry of its own |
| Resolution.UnknownTypeGetsOneEntry | MockProvider/MockProvider.cs:58-75 | a type with no entry of its full name gets exactly one new created entry, appended, holding the mock built from the resolved arguments, and its `Object` is the answer |
| Resolution.SeedsResolveToProvider | MockProvider/MockProvider.cs:12-16 | a fresh registry asked for IServiceProvider or IServiceCollection answers itself and changes nothing |
| Resolution.ClearedRegistryMocksProvider | MockProvider/MockProvider.cs:133-136 | after `Clear`, IServiceProvider is answered by a newly built mock that becomes the only entry |
| Resolution.ReadValueSpec | MockProvider/MockDescriptor.cs:14 | a created slot answers what it holds and nothing changes; any other slot fails and stays uncreated; the list only evolves |
| Provider.MockDescriptor.Deferred | MockProvider/MockDescriptor.cs:11-15 | a descriptor for the service type, transient, owned by the registry, with a pending slot |
| Provider.MockDescriptor.Ready | MockProvider/MockDescriptor.cs:17-21 | a descriptor for the service type, transient, owned by the registry, already created with the given mock |
| Provider.MockDescriptor.IsCreated | MockProvider/MockDescriptor.cs:27 | whether the lazy value holds a mock; `IsCreatedIsFixed` states that it never changes for a listed descriptor |
| Provider.IsCreatedIsFixed | MockProvider/MockDescriptor.cs:27 | a listed descriptor's `IsCreated` is its entry's slot being created, and after any resolution step that entry is created exactly when it was, holding the same value |
| Provider.MockDescriptor.ToString | MockProvider/MockDescriptor.cs:34-37 | the short name of the service type; `QualifiesByRendering` states where that name is compared |
| Provider.MockDescriptor.ReadMock | MockProvider/MockDescriptor.cs:25 | the answer, the owner's list and the slot afterwards are those of `ReadValueSpec`; a created slot is read without change |
| Provider.MockDescriptor.Factory | MockProvider/MockDescriptor.cs:14 | the factory runs `CreateMock(serviceType)` on the owning registry; the list afterwards is what that call leaves, and the value is its error or, on success, `FactoryResultNotMock` |
| Provider.MockDescriptor.RunFactory | MockProvider/MockDescriptor.cs:14 | the first read of a pending slot marks it running, runs `CreateMock` on the owner, then caches and returns the failure |
| Provider.MockDescriptor.SetSlot | MockProvider/MockDescriptor.cs:8 | a slot write is seen in the owner's list at this descriptor's position and nowhere else |
| Provider.ReadRemoved | MockProvider/MockDescriptor.cs:25 | a descriptor `RemoveAt` took out of the list still answers `Mock`, as `ReadValueSpec` says for a descriptor that is not listed, against the list without it |
| Reflection.Build | MockProvider/MockProvider.cs:67-70 | the mock built for a type has that type as its generic argument, and the `as Mock` cast gives null exactly when Moq builds nothing |
| Reflection.ObjectOf | MockProvider/MockDescriptor.cs:23 | `.Object` of a null mock throws and nothing else does; the seed entries answer the registry itself |
| Provider.MockDescriptor.Instance | MockProvider/MockDescriptor.cs:23 | the `Object` of the slot's value, with the slot and the owner's list as `ReadValueSpec` leaves them |
| Registry.VerifySlot | MockProvider/MockDescriptor.cs:29-33 | an uncreated slot is not verified; a created null mock throws; a created mock verifies exactly when Moq reports no failure |
| Provider.MockDescriptor.Verify | MockProvider/MockDescriptor.cs:29-33 | the outcome is `VerifySlot` of the current slot, and the slot is never forced |
| Registry.VerifyAllSpec | MockProvider/MockProvider.cs:89-93 | verification succeeds exactly when every entry's own verification succeeds |
| Registry.VerifyReportsFirstFailure | MockProvider/MockProvider.cs:89-93 | a failed `Verify` reports the failure of the first failing entry, all earlier entries having passed |
| Provider.MockProvider.Verify | MockProvider/MockProvider.cs:89-93 | the loop's outcome is `VerifyAllSpec` of the list |
| Provider.MockProvider.Count | MockProvider/MockProvider.cs:97 | the length of the list as `Snapshot()` reads it |
| Provider.MockProvider.Get | MockProvider/MockProvider.cs:103 | the descriptor at the index, or `ArgumentOutOfRange` exactly when the index is outside the list |
| Registry.SetAtSpec | MockProvider/MockProvider.cs:104 | an index inside the list is replaced by a pending entry for the value's type and the rest is kept; any other index throws and changes nothing |
| Provider.MockProvider.Set | MockProvider/MockProvider.cs:104 | the outcome and the list afterwards are those of `SetAtSpec`; the replaced descriptor is no longer among the registry's |
| Provider.MockProvider.AddService | MockProvider/MockProvider.cs:107-110 | one pending entry for the item's service type is appended and nothing else changes |
| Registry.IndexOfSpec | MockProvider/MockProvider.cs:112-116 | the position of the first entry whose service type is the item's, and -1 exactly when there is none |
| Provider.MockProvider.IndexOf | MockProvider/MockProvider.cs:112-116 | the same, stated on the descriptor objects |
| Registry.ContainsIffIndexOf | MockProvider/MockProvider.cs:138 | `Contains` holds exactly when `IndexOf` is not -1 |
| Provider.MockProvider.Contains | MockProvider/MockProvider.cs:138 | `Contains` holds exactly when `IndexOf` is not -1 |
| Registry.InsertSpec | MockProvider/MockProvider.cs:118-121 | an index from 0 to Count puts a pending entry for the item's type there and shifts the rest right; any other index throws and changes nothing |
| Provider.MockProvider.Insert | MockProvider/MockProvider.cs:118-121 | the outcome and the list afterwards are those of `InsertSpec` |
| Registry.RemoveAtSpec | MockProvider/MockProvider.cs:123-126 | an index inside the list removes that entry and shifts the rest left; any other index throws and changes nothing |
| Provider.MockProvider.RemoveAt | MockProvider/MockProvider.cs:123-126 | the outcome and the list afterwards are those of `RemoveAtSpec`; the removed descriptor is no longer among the registry's |
| Registry.RemoveSpec | MockProvider/MockProvider.cs:146-152 | reports true exactly when an entry of the item's type exists, and then removes the first such entry only; otherwise nothing changes |
| Provider.MockProvider.Remove | MockProvider/MockProvider.cs:146-152 | the answer and the list afterwards are those of `RemoveSpec`; a removed descriptor is no longer among the registry's |
| Provider.MockProvider.Clear | MockProvider/MockProvider.cs:133-136 | the list is empty, the seed entries are not put back, and no descriptor is the registry's any more |
| Configuration.Apply | MockProvider/MockProvider.cs:101-152 | one call of the configuration callback does to the registry what the corresponding list operation's specification says |
| Configuration.Configure | MockProvider/IocTesting.cs:25 | running the callback applies its calls in order and stops at the first that throws |
| Configuration.ConfigureKeepsOnlySeedsCreated | MockProvider/MockProvider.cs:104-131 | after any callback on a fresh registry, every entry is pending except seed entries holding the registry |
| Configuration.ConfiguredServiceNeverResolves | MockProvider/MockProvider.cs:107-110 | a service the callback registered, under a full name other than the seeds', fails to resolve |
| Scanning.Probe.ToString | MockProvider/IocTesting.cs:65 | the rendering is the type's full name, " -> ", the member's name, " -> ", the parameter's name |
| Scanning.MarkedParamsExactly | MockProvider/IocTesting.cs:40 | a parameter is kept exactly when it is one of the method's parameters and carries a `[FromServices]` attribute |
| Scanning.MarkedParamsAppend | MockProvider/IocTesting.cs:40 | the marked parameters of two runs of parameters are those of the first followed by those of the second, so parameter order is kept |
| Scanning.MarkedParamsOne | MockProvider/IocTesting.cs:40 | a single parameter is kept exactly when it is marked |
| Scanning.ParamProbes | MockProvider/IocTesting.cs:31-35 | one probe per parameter of the member, in parameter order |
| Scanning.ProbesAreExactly | MockProvider/IocTesting.cs:26-47 | the scan probes exactly the constructor parameters and the marked method parameters of the candidates |
| Scanning.ScanSpec | MockProvider/IocTesting.cs:26-49 | there are never more findings than probes; a fail-fast scan that succeeds finds nothing |
| Scanning.ScanFindsOnlyProbes | MockProvider/IocTesting.cs:26-49 | every finding of a successful scan is one of its probes |
| Scanning.ScanConcat | MockProvider/IocTesting.cs:26-48 | scanning two runs of probes is scanning the first, then the second on the registry the first left behind |
| Scanning.FailFastStopsAtFirstFinding | StartUpTests/StartupTest.cs:33 | the asserting scan passes exactly when the collecting scan finds nothing, and otherwise fails with the first finding's rendering as its message |
| Scanning.ProbeOne | MockProvider/IocTesting.cs:33-34 | one `GetService` of the parameter's type, then the null check, as `ScanSpec` of that probe |
| Scanning.ProbeParams | MockProvider/IocTesting.cs:31-35 | the loop over one member's parameters agrees with `ScanSpec` of its probes |
| Scanning.ProbeConstructors | MockProvider/IocTesting.cs:28-36 | the loop over the constructors agrees with `ScanSpec` of the constructor probes |
| Scanning.ProbeMethods | MockProvider/IocTesting.cs:38-46 | the loop over the methods agrees with `ScanSpec` of the marked-parameter probes |
| Scanning.ProbeType | MockProvider/IocTesting.cs:28-46 | one candidate: constructors first, then methods, as `ScanSpec` of its probes |
| Scanning.ProbeTypes | MockProvider/IocTesting.cs:26-48 | the loop over the candidates agrees with `ScanSpec` of all their probes |
| IocTesting.IsAssignableFrom | MockProvider/IocTesting.cs:23 | `tBase.IsAssignableFrom(x)`: `x` is the base, implements it, or derives from it |
| IocTesting.Candidates | MockProvider/IocTesting.cs:23 | exactly the assembly's types assignable to the base, no more of them than the assembly has |
| IocTesting.CandidatesAppend | MockProvider/IocTesting.cs:23 | the candidates of two runs of types are those of the first followed by those of the second, so assembly order is kept |
| IocTesting.CandidatesOne | MockProvider/IocTesting.cs:23 | a single type is a candidate exactly when the base is assignable from it |
| IocTesting.AssemblyOf | MockProvider/IocTesting.cs:22 | the given assembly, or the one declaring the callback when none is given |
| IocTesting.FindMissingRegistrations | MockProvider/IocTesting.cs:16-50 | the candidates are chosen, the callback configures a fresh registry, then a collecting scan runs; the result is that of `FindMissingSpec` |
| IocTesting.FindingsAreOwedProbes | MockProvider/IocTesting.cs:22-46 | every finding is a constructor parameter or a marked method parameter of a type of the chosen assembly that is assignable to the base |
| IocTesting.UnmarkedParameterNeverReported | MockProvider/IocTesting.cs:40 | a method parameter without an attribute of FromServicesAttribute's full name is never reported |
| StartupTest.FromInterface | StartUpTests/StartupTest.cs:11-12 | exactly the types that implement the base interface |
| StartupTest.FromInterfaceAppend | StartUpTests/StartupTest.cs:11-12 | filtering two runs of types gives the first run's result followed by the second's, so assembly order is kept |
| StartupTest.FromInterfaceOne | StartUpTests/StartupTest.cs:11-12 | a single type is kept exactly when it implements the base |
| StartupTest.FromClass | StartUpTests/StartupTest.cs:14-15 | exactly the types that derive from the base class |
| StartupTest.FromClassAppend | StartUpTests/StartupTest.cs:14-15 | filtering two runs of types gives the first run's result followed by the second's, so assembly order is kept |
| StartupTest.FromClassOne | StartUpTests/StartupTest.cs:14-15 | a single type is kept exactly when it derives from the base |
| StartupTest.StartupCandidates | StartUpTests/StartupTest.cs:23 | interfaces use `FromInterface` and classes `FromClass`; every candidate is also one of IocTesting's, and the base itself is not one unless reflection lists it among its own interfaces or base classes |
| StartupTest.TestIocConfiguration | StartUpTests/StartupTest.cs:17-46 | the callback configures a fresh registry, then a fail-fast scan runs; the outcome is that of `TestIocSpec` |
| StartupTest.PassesIffNothingMissing | StartUpTests/StartupTest.cs:26-45 | the start-up check passes exactly when a collecting scan over its probes finds nothing, and otherwise fails with the first finding's rendering |

## Left out

- Moq is not modelled. Building a mock, its `Object` and its `Verify` are functions in `Env` that the model does not look inside.
- Reflection is not modelled. Types are records, and what a type declares comes from `Env.reflect`. Generic types are ordinary types, and the generic argument of a `Mock<T>` is the mock's `target`. `IocTesting.IsAssignableFrom` knows only identity, listed interfaces and listed base classes; it leaves out generic variance and the rule that `object` is assignable from every interface.
- Thread safety of `Lazy<T>` is left out. The model is single-threaded: a re-entrant read of a running slot fails with `RecursiveLazyAccess`, and nothing else can interleave.
- The recursion depth is bounded by `fuel`. A resolution that the source would run until the stack overflows ends with `DepthExceeded`, so the model does not say at which depth the real program fails.
- Provider.MockDescriptor.RunFactory: the factory's result is a descriptor where a mock is expected. The model runs the factory for its effects and then fails with `FactoryResultNotMock`. It does not model a conversion that would turn the descriptor into a mock.
- MockProvider/InstanceDescriptor.cs is not part of this model. The two seed entries are created entries holding the registry itself (`ProviderInstance`), and `Verify` does nothing for them.
- `CopyTo`, the two `GetEnumerator`s and `IsReadOnly` are left out. They only expose the list, and `Snapshot()` states the list in full.
- Null arguments and the `NullReferenceException`s they would raise are left out. Arguments are values, never null.
- `AddTransient`, `GetRequiredService` and the other extension methods of the DI abstractions are not part of this model. The callback is a script of the list calls they end in (`Configuration.Registration`).
- The `configureServices` delegate is modelled as its script of list calls plus the types of its declaring assembly. Code in the callback that does anything other than call the list is not modelled.
- MSTest's `Assert.IsNotNull` is modelled as the error `AssertionFailed(message)`. The framework's own message prefix is left out.
- IocTesting.FindMissingRegistrations: an exception thrown by `GetService` ends the whole call with that error. No partial list is returned.
- Scanning.ScanSpec: its contract bounds the number of findings and says that a successful fail-fast scan finds nothing. That every finding is a probe is `ScanFindsOnlyProbes`. Which probe is a finding follows from the definition, a probe at a time, and `ScanConcat`.
