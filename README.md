# ProxyTool annotation processor, modelled in Dafny

ProxyTool is a compile-time annotation processor for Android view binding. For each
class that has `@ViewById` fields or `@OnClick` methods, it generates a companion class
`<Host>$$Proxy`. The companion's `inject(target, root)` method looks up each annotated view
by id, assigns it to its field, and installs click listeners that call the annotated methods.

This project models the processor's core:

- the validator `isValid`;
- the two binding descriptors, `FieldViewBinding` and `MethodViewBinding` (a partial constructor);
- the per-host aggregate `ProxyClass`, with its two `add` overloads and `generateProxy`;
- the processor's map of aggregates, with `getProxyClass`, `parseViewById` and `parseClick`;
- the round driver `process`:
  - it scans the fields first, then the methods, and stops at the first rejected member or failed binding;
  - it writes one companion per host and tolerates individual write failures;
  - it clears the map only when the round completes.

Modules:

| file | module | what it holds |
|---|---|---|
| wrappers.dfy | Wrappers | `Option`, `Result` |
| elements.dfy | Elements | the compiler's element records as plain values, the two annotations, diagnostics |
| field_view_binding.dfy | FieldBindings | the field descriptor |
| method_view_binding.dfy | MethodBindings | the method descriptor and its parameter-shape rule |
| proxytool_api.dfy | ProxyToolApi | the runtime's class-name suffix |
| proxy_class.dfy | ProxyClasses | the abstract companion (statements, method and type descriptions), the function `Generate` that specifies `generateProxy`, with its lemmas, and the class `ProxyClass` |
| validator.dfy | Validator | `isValid` and its lemmas |
| rounds.dfy | Rounds | the registry as a value (`map<string, ProxyState>`) and one round as functions: the two fail-fast scans and the emission; lemmas about them |
| processor.dfy | Processor | the class `ProxyToolProcessor`: its map of `ProxyClass` objects, the helpers and `Process`, each proved against the functions of Rounds |

The processor's class keeps a ghost `registry` field. `Valid()` ties it to the states of the
heap objects in the map. Each method states its new `registry` as a function of the old one
(`RegisterField`, `RegisterClick`, `ScanRound`, ...). The properties of a round are proved
as lemmas about those functions.

Binding classes have no `equals`/`hashCode`, so their hash sets compare by identity, and
adding a new binding always grows the set by one. The model therefore keeps each collection
as a sequence in insertion order. Properties that must not depend on the sets' iteration order
are stated over multisets.

The companion is named after the host's simple name plus `$$Proxy`
(ProxyClass.java lines 57 and 105). The runtime appends the same suffix to the target's class
name (ProxyTool.java lines 49 and 58).

## Model

| member | source | states |
|---|---|---|
| FieldBindings.NewFieldViewBinding | proxytool-compiler/src/main/java/proxytool/compiler/model/FieldViewBinding.java:36-48 | construction is total and copies the annotation's id, the field's simple name and its declared type verbatim, which is what the getters return |
| FieldBindings.NewFieldViewBindingInjective | proxytool-compiler/src/main/java/proxytool/compiler/model/FieldViewBinding.java:36-64 | two bindings are equal exactly when they come from the same field, so two fields sharing an id give two bindings |
| MethodBindings.NewMethodViewBinding | proxytool-compiler/src/main/java/proxytool/compiler/model/MethodViewBinding.java:25-68 | succeeds exactly for no parameter or one parameter whose type text is `android.view.View`; more than one parameter fails on the count, a single non-View parameter fails on the type; on success the name, the ids verbatim and the parameter name (present exactly when there is one parameter) are kept |
| MethodBindings.SubclassParameterRefused | proxytool-compiler/src/main/java/proxytool/compiler/model/MethodViewBinding.java:41-46 | a single `android.widget.Button` parameter is refused: the type test is string equality |
| MethodBindings.CountCheckedBeforeType | proxytool-compiler/src/main/java/proxytool/compiler/model/MethodViewBinding.java:36-46 | two View parameters fail on the count, which is checked first |
| ProxyToolApi.CompanionClassName | proxytool-api/src/main/java/proxytool/api/ProxyTool.java:49-58 | the runtime looks up the target's class name followed by the suffix |
| ProxyClasses.ProxyClass.constructor | proxytool-compiler/src/main/java/proxytool/compiler/model/ProxyClass.java:34-40 | a new aggregate holds its host and two empty collections |
| ProxyClasses.ProxyClass.AddField | proxytool-compiler/src/main/java/proxytool/compiler/model/ProxyClass.java:42-44 | the field collection grows by exactly the new binding; the method collection is unchanged |
| ProxyClasses.ProxyClass.AddMethod | proxytool-compiler/src/main/java/proxytool/compiler/model/ProxyClass.java:46-48 | the method collection grows by exactly the new binding; the field collection is unchanged |
| ProxyClasses.ProxyClass.GenerateProxy | proxytool-compiler/src/main/java/proxytool/compiler/model/ProxyClass.java:62-117 | the companion is `Generate` of the aggregate's state: it is public, is named host simple name + `$$Proxy`, lives in the host's package, and implements `IProxy<Host>`; `inject` is public, @Override and void, and takes `(final Host target, View root)` |
| ProxyClasses.FieldStatementsAt | proxytool-compiler/src/main/java/proxytool/compiler/model/ProxyClass.java:72-76 | one assignment per field binding, in iteration order, carrying its name, its type as the cast, and its id |
| ProxyClasses.RegistrationsAt | proxytool-compiler/src/main/java/proxytool/compiler/model/ProxyClass.java:97-100 | one registration per id, in array order, duplicates included |
| ProxyClasses.MethodBlocksLength | proxytool-compiler/src/main/java/proxytool/compiler/model/ProxyClass.java:84-101 | the method blocks hold `1 + \|ids\|` statements per method binding |
| ProxyClasses.InjectBodyLength | proxytool-compiler/src/main/java/proxytool/compiler/model/ProxyClass.java:72-101 | the body has `N_fields + [M > 0] + sum(1 + \|ids_m\|)` statements |
| ProxyClasses.MethodBlocksOnlyListenerStatements | proxytool-compiler/src/main/java/proxytool/compiler/model/ProxyClass.java:84-101 | the method loop emits only listener assignments and registrations |
| ProxyClasses.MethodBlockAt | proxytool-compiler/src/main/java/proxytool/compiler/model/ProxyClass.java:84-101 | binding j's block follows the blocks of the bindings before it and is its listener assignment immediately followed by its registrations, so each registration uses its own block's listener |
| ProxyClasses.InjectBodyFieldGroup | proxytool-compiler/src/main/java/proxytool/compiler/model/ProxyClass.java:72-76 | the field assignments come first, in iteration order, and no assignment appears after them |
| ProxyClasses.InjectBodyListenerDeclaration | proxytool-compiler/src/main/java/proxytool/compiler/model/ProxyClass.java:79-81 | the listener variable is declared exactly once, right after the assignments, exactly when there is a method binding; otherwise never |
| ProxyClasses.InjectBodyMethodBlock | proxytool-compiler/src/main/java/proxytool/compiler/model/ProxyClass.java:79-101 | binding j's block sits after the assignments, the declaration, and the earlier blocks |
| ProxyClasses.FieldStatementsPermutation | proxytool-compiler/src/main/java/proxytool/compiler/model/ProxyClass.java:72-76 | reordering the field bindings only reorders the assignments |
| ProxyClasses.MethodBlocksPermutation | proxytool-compiler/src/main/java/proxytool/compiler/model/ProxyClass.java:84-101 | reordering the method bindings only reorders whole blocks |
| ProxyClasses.InjectBodyOrderIndependent | proxytool-compiler/src/main/java/proxytool/compiler/model/ProxyClass.java:34-35 | any two iteration orders of the same bindings give the same statements up to order |
| ProxyClasses.ForwardedArgumentBinding | proxytool-compiler/src/main/java/proxytool/compiler/model/ProxyClass.java:65-93 | the generated call passes the handler's parameter name, or nothing when it has none. The clicked view is passed exactly when that name is `view`, the callback's own parameter. The name is a parameter in scope exactly when it is `view`, `target` or `root`, since `inject`'s parameters are visible too; the local `listener` is also visible but never usable (not definitely assigned before the first callback, and not effectively final once reassigned). `root` passes inject's root view, typed View but not the clicked one; it is not final, so this needs Java 8. `target` passes the host object, typed as the host class, so it compiles only when the host class is itself a View |
| ProxyClasses.CompanionNameMatchesRuntime | proxytool-compiler/src/main/java/proxytool/compiler/model/ProxyClass.java:105-116 | for a top-level host, when the target's runtime class is the host itself, the companion's qualified name is the one the runtime loads (ProxyTool.java lines 57-58); for an instance of a subclass the runtime looks for the subclass's companion |
| ProxyClasses.NestedHostCompanionNotFound | proxytool-compiler/src/main/java/proxytool/compiler/model/ProxyClass.java:105-116 | for every host nested in another class, the names differ: the companion uses the simple name, while the runtime uses the binary name `Outer$Inner` |
| ProxyClasses.NestedHostsShareCompanionName | proxytool-compiler/src/main/java/proxytool/compiler/model/ProxyClass.java:105-116 | any two distinct hosts of one package with the same simple name (for instance two classes nested as `Inner` in different outer classes) get companions of the same qualified name |
| Validator.SetContains | proxytool-compiler/src/main/java/proxytool/compiler/ProxyToolProcessor.java:153-154 | a set of enum modifiers contains an object exactly when that object is one of its modifier constants |
| Validator.IsValid | proxytool-compiler/src/main/java/proxytool/compiler/ProxyToolProcessor.java:144-183 | prints the modifier, kind and namespace messages in order; the first two only clear the flag, the namespace checks return at once; it admits exactly when the host is a class outside `android.` and `java.`, which is exactly when it prints nothing |
| Validator.RejectsIffReports | proxytool-compiler/src/main/java/proxytool/compiler/ProxyToolProcessor.java:144-183 | the validator rejects exactly when it prints at least one message |
| Validator.ModifierRuleNeverFires | proxytool-compiler/src/main/java/proxytool/compiler/ProxyToolProcessor.java:33-34 | the private/static test compares a boxed `int` with enum modifiers, so it never fires: a private static member of an ordinary class is admitted, and no private/static message is ever printed |
| Validator.NonClassRejected | proxytool-compiler/src/main/java/proxytool/compiler/ProxyToolProcessor.java:162-167 | a member of an interface, enum or other non-class type is rejected, and the message is attributed to that type |
| Validator.AtMostOneNamespaceError | proxytool-compiler/src/main/java/proxytool/compiler/ProxyToolProcessor.java:170-180 | at most one namespace message is printed, and for an `android.` host it is the Android one |
| Validator.DotIsPartOfPrefix | proxytool-compiler/src/main/java/proxytool/compiler/ProxyToolProcessor.java:170-180 | hosts under `javax` and `androidx` are admitted, because the dot is part of the prefix |
| Rounds.GetOrCreateKeeps | proxytool-compiler/src/main/java/proxytool/compiler/ProxyToolProcessor.java:130-141 | get-or-create keeps every entry; it adds the host, empty, exactly when the host is new |
| Rounds.RegisterFieldGrows | proxytool-compiler/src/main/java/proxytool/compiler/ProxyToolProcessor.java:107-112 | parseViewById adds the field's binding to its host's aggregate, keeps every other entry, and only appends |
| Rounds.RegisterClickGrows | proxytool-compiler/src/main/java/proxytool/compiler/ProxyToolProcessor.java:119-124 | parseClick registers the host even when the binding fails; it appends the binding when it can be built |
| Rounds.ScanFieldsHalts | proxytool-compiler/src/main/java/proxytool/compiler/ProxyToolProcessor.java:68-73 | after the first rejected field, the later fields change nothing |
| Rounds.ScanClicksHalts | proxytool-compiler/src/main/java/proxytool/compiler/ProxyToolProcessor.java:77-87 | after the first rejected or unbindable method, the later methods change nothing |
| Rounds.ScanFieldsReports | proxytool-compiler/src/main/java/proxytool/compiler/ProxyToolProcessor.java:68-73 | the field loop runs to the end exactly when it prints nothing |
| Rounds.ScanClicksReports | proxytool-compiler/src/main/java/proxytool/compiler/ProxyToolProcessor.java:77-87 | the method loop runs to the end exactly when it prints nothing |
| Rounds.ScanRoundReports | proxytool-compiler/src/main/java/proxytool/compiler/ProxyToolProcessor.java:64-88 | a round reaches the emission loop exactly when its scan printed nothing |
| Rounds.ScanFieldsExtends | proxytool-compiler/src/main/java/proxytool/compiler/ProxyToolProcessor.java:68-73 | the field loop, stopped or not, keeps every aggregate and only appends to them |
| Rounds.ScanFieldsHosts | proxytool-compiler/src/main/java/proxytool/compiler/ProxyToolProcessor.java:68-73 | the field loop adds only the hosts of the fields it saw, and all of them when it completes |
| Rounds.ScanFieldsRegistersAll | proxytool-compiler/src/main/java/proxytool/compiler/ProxyToolProcessor.java:68-73 | a completed field loop admitted every field and registered each one's binding |
| Rounds.ScanClicksExtends | proxytool-compiler/src/main/java/proxytool/compiler/ProxyToolProcessor.java:77-87 | the method loop, stopped or not, keeps every aggregate and only appends to them |
| Rounds.ScanClicksHosts | proxytool-compiler/src/main/java/proxytool/compiler/ProxyToolProcessor.java:77-87 | the method loop adds only the hosts of the methods it saw, and all of them when it completes |
| Rounds.ScanClicksRegistersAll | proxytool-compiler/src/main/java/proxytool/compiler/ProxyToolProcessor.java:77-87 | a completed method loop admitted every method and registered each one's binding |
| Rounds.ScanRoundGrows | proxytool-compiler/src/main/java/proxytool/compiler/ProxyToolProcessor.java:64-88 | a round, aborted or not, keeps what the map held; when it completes, the hosts are exactly the old ones plus those of the annotated members, and every member's binding is registered |
| Rounds.ScanFieldsContents | proxytool-compiler/src/main/java/proxytool/compiler/ProxyToolProcessor.java:68-73 | a completed field loop leaves each aggregate holding its old field bindings followed by exactly one binding per field of that host, in scan order, and its method bindings untouched |
| Rounds.ScanClicksContents | proxytool-compiler/src/main/java/proxytool/compiler/ProxyToolProcessor.java:77-87 | a completed method loop leaves each aggregate holding its old method bindings followed by exactly one binding per method of that host, in scan order, and its field bindings untouched |
| Rounds.ScanRoundContents | proxytool-compiler/src/main/java/proxytool/compiler/ProxyToolProcessor.java:64-88 | after a completed round each aggregate is its old contents plus exactly one binding per annotated member of that host, and nothing else; a host with no aggregate had none and no annotated member |
| Rounds.NewHostCompanion | proxytool-compiler/src/main/java/proxytool/compiler/ProxyToolProcessor.java:64-96 | the companion of a host first seen in a completed round has one assignment per annotated field of that host, first, in scan order, no other assignment, and N + [M > 0] + sum(1 + \|ids\|) statements |
| Rounds.EmissionAccounting | proxytool-compiler/src/main/java/proxytool/compiler/ProxyToolProcessor.java:90-96 | each host gets exactly one write attempt, which yields either a companion or one unattributed error |
| Rounds.HealthyHostsWritten | proxytool-compiler/src/main/java/proxytool/compiler/ProxyToolProcessor.java:90-96 | a failing write costs only its own companion; every other host's companion is written |
| Rounds.OnlyHealthyHostsWritten | proxytool-compiler/src/main/java/proxytool/compiler/ProxyToolProcessor.java:90-96 | only companions of hosts whose write succeeds are written |
| Rounds.CleanEmission | proxytool-compiler/src/main/java/proxytool/compiler/ProxyToolProcessor.java:90-96 | with no failing write there are no messages, and the companions come one per host, in iteration order |
| Rounds.AbortedRoundIsNotRolledBack | proxytool-compiler/src/main/java/proxytool/compiler/ProxyToolProcessor.java:77-99 | a round aborted by a two-parameter handler keeps the earlier field's binding and the handler host's empty aggregate; the next round, even an empty one, completes and writes a companion with an empty body for that host |
| Processor.IterationOrder | proxytool-compiler/src/main/java/proxytool/compiler/ProxyToolProcessor.java:90 | the map's values are visited in some order that lists every key exactly once |
| Processor.ProxyToolProcessor.constructor | proxytool-compiler/src/main/java/proxytool/compiler/ProxyToolProcessor.java:58 | the processor starts with an empty map |
| Processor.ProxyToolProcessor.ValidIsWellKeyed | proxytool-compiler/src/main/java/proxytool/compiler/ProxyToolProcessor.java:130-141 | every aggregate is filed under its host's qualified name |
| Processor.ProxyToolProcessor.GetProxyClass | proxytool-compiler/src/main/java/proxytool/compiler/ProxyToolProcessor.java:130-141 | returns the entry for the host's qualified name, creating and inserting a fresh one when there is none; every other entry is unchanged; the registry becomes `GetOrCreate` of the old one |
| Processor.ProxyToolProcessor.ParseViewById | proxytool-compiler/src/main/java/proxytool/compiler/ProxyToolProcessor.java:107-112 | the registry becomes `RegisterField` of the old one, with the field's binding |
| Processor.ProxyToolProcessor.ParseClick | proxytool-compiler/src/main/java/proxytool/compiler/ProxyToolProcessor.java:119-124 | the registry becomes `RegisterClick` of the old one; the exception that escapes is exactly the binding's failure |
| Processor.ProxyToolProcessor.BindViewByIds | proxytool-compiler/src/main/java/proxytool/compiler/ProxyToolProcessor.java:68-73 | the field loop's outcome, printed messages and new registry are those of `ScanFields` |
| Processor.ProxyToolProcessor.BindOnClick | proxytool-compiler/src/main/java/proxytool/compiler/ProxyToolProcessor.java:78-86 | one iteration of the method loop: its outcome, printed messages and new registry are those of `ClickStep`, which validates, then binds |
| Processor.ProxyToolProcessor.BindOnClicks | proxytool-compiler/src/main/java/proxytool/compiler/ProxyToolProcessor.java:77-87 | the method loop's outcome, printed messages and new registry are those of `ScanClicks` |
| Processor.ProxyToolProcessor.WriteCompanions | proxytool-compiler/src/main/java/proxytool/compiler/ProxyToolProcessor.java:90-96 | writes in an order that enumerates the hosts; messages and files are `WriteDiagnostics` and `EmittedFiles` of that order |
| Processor.ProxyToolProcessor.Process | proxytool-compiler/src/main/java/proxytool/compiler/ProxyToolProcessor.java:64-100 | always claims the round. An aborted round prints the scan's messages, writes nothing and keeps the grown map. A completed round writes one companion per registered host in some iteration order, reports each failed write, and clears the map |

## Left out

- JavaPoet rendering is not modelled: no source text, `$N/$T/$L` substitution or formatting. The companion is an abstract description whose `inject` body is a sequence of `Statement`s.
- Message text (`String.format`, `Messager`) is not modelled. A diagnostic is its kind plus the element it is attributed to.
- Messages and written files are results of the methods (`printed`, `files`), not calls on a `Messager` or a `Filer`.
- `Filer` I/O is not modelled. Whether a host's write throws `IOException` is the input `failing`, a set of host names.
- `Elements.getPackageOf` and `TypeMirror` are not modelled. The host's package and type text are fields of the `TypeElement` record.
- `HashMap` and `HashSet` iteration order are not modelled:
  - `IterationOrder` picks some enumeration of the keys;
  - bindings keep insertion order;
  - the order-independence lemmas cover any other order.
- `init`, `getSupportedAnnotationTypes` and `getSupportedSourceVersion` are not modelled, since they are processor-framework plumbing.
- The runtime `ProxyTool.createBinding` (reflection, `newInstance`, swallowed exceptions) is not modelled; only its suffix and name lookup are.
- `IProxy`, the annotation declarations and the sample activity are not modelled. The annotation values are inputs.
- `process`'s three loops are the methods `BindViewByIds`, `BindOnClicks` and `WriteCompanions`, which `Process` calls in sequence. The body of the method loop is the method `BindOnClick`. The order of operations is unchanged.
- Each validator message is printed as the validator reaches it. The model returns them as a sequence, and the loops pass them on only when the member is rejected. Since an admitted member prints nothing (`Validator.RejectsIffReports`), the printed output is the same.
- The `annotations` argument and the `RoundEnvironment` are not modelled. A round's input is its two sequences of annotated fields and methods.
- Processor.ProxyToolProcessor.GetProxyClass: does not state that an existing entry's host equals the member's enclosing element. Only the qualified names are known to agree, and the source compares nothing else.
- The Filer refuses to create a second file with a qualified name it has already created; the resulting FilerException is an IOException, which the emission loop reports. Two nested hosts can collide this way (`NestedHostsShareCompanionName`). This refusal is not modelled: a write fails only when its host is in `failing`, so the model lets both companions be written unless the caller marks the second write as failing.
