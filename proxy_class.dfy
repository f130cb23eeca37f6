/**
 * The per-host aggregate: the field and method bindings collected for one
 * host class, and the synthesis of its companion class. The generated source
 * text is not modelled; the companion is an abstract class description whose
 * `inject` body is a sequence of statements.
 */
module ProxyClasses {
  import opened Wrappers
  import opened Elements
  import opened FieldBindings
  import opened MethodBindings
  import ProxyToolApi

  /** Appended to the host's simple name to name its companion. */
  const SUFFIX: string := "$$Proxy"
  /** The injection interface every companion implements, parameterised by the host type. */
  const IPROXY: string := "proxytool.api.IProxy"
  /** The name of the generated onClick callback's own parameter. */
  const ON_CLICK_PARAMETER: string := "view"

  /** The statements the generated `inject` method is made of. */
  datatype Statement =
    | AssignField(name: string, castType: string, id: int32)  // target.name = (castType)(root.findViewById(id))
    | DeclListener                                            // View.OnClickListener listener
    | SetListener(methodName: string, argText: string)        // listener = new OnClickListener() { onClick(View view) { target.methodName(argText); } }
    | Register(id: int32)                                     // (root.findViewById(id)).setOnClickListener(listener)

  datatype ParameterSpec = ParameterSpec(typeName: string, name: string, isFinal: bool)

  datatype MethodSpec = MethodSpec(
    name: string,
    isPublic: bool,
    overrides: bool,
    returnsVoid: bool,
    parameters: seq<ParameterSpec>,
    body: seq<Statement>)

  /** A parameterised interface type, `raw<argument>`. */
  datatype InterfaceType = InterfaceType(raw: string, argument: string)

  datatype TypeSpec = TypeSpec(
    name: string,
    isPublic: bool,
    superinterface: InterfaceType,
    inject: MethodSpec)

  /** A generated compilation unit: a package and one class. */
  datatype JavaFile = JavaFile(packageName: string, typeSpec: TypeSpec)

  /** The abstract value of a ProxyClass: its host and its two binding collections. */
  datatype ProxyState = ProxyState(
    typeElement: TypeElement,
    bindViews: seq<FieldViewBinding>,
    methods: seq<MethodViewBinding>)

  // ---------------------------------------------------------------------------
  // Specification of the generated body

  function AssignStatement(b: FieldViewBinding): Statement {
    AssignField(b.variableName, b.typeMirror, b.resId)
  }

  /** The argument text of the generated call: the handler's parameter name, or nothing. */
  function ForwardedArgument(m: MethodViewBinding): string {
    match m.parameterName
    case Some(n) => n
    case None => ""
  }

  /** One assignment per field binding, in iteration order. */
  function FieldStatements(fs: seq<FieldViewBinding>): (r: seq<Statement>)
    ensures |r| == |fs|
  {
    if fs == [] then [] else FieldStatements(fs[..|fs| - 1]) + [AssignStatement(fs[|fs| - 1])]
  }

  /** One registration per id, in array order, duplicates kept. */
  function Registrations(ids: seq<int32>): (r: seq<Statement>)
    ensures |r| == |ids|
  {
    if ids == [] then [] else Registrations(ids[..|ids| - 1]) + [Register(ids[|ids| - 1])]
  }

  /** The block for one method binding: the listener assignment, then its registrations. */
  function ListenerBlock(m: MethodViewBinding): seq<Statement> {
    [SetListener(m.methodName, ForwardedArgument(m))] + Registrations(m.ids)
  }

  function MethodBlocks(ms: seq<MethodViewBinding>): seq<Statement> {
    if ms == [] then [] else MethodBlocks(ms[..|ms| - 1]) + ListenerBlock(ms[|ms| - 1])
  }

  /** The sum over the method bindings of 1 + the number of ids. */
  function ListenerStatementCount(ms: seq<MethodViewBinding>): nat {
    if ms == [] then 0 else ListenerStatementCount(ms[..|ms| - 1]) + 1 + |ms[|ms| - 1].ids|
  }

  function ListenerDeclaration(ms: seq<MethodViewBinding>): seq<Statement> {
    if |ms| > 0 then [DeclListener] else []
  }

  function InjectBody(fs: seq<FieldViewBinding>, ms: seq<MethodViewBinding>): seq<Statement> {
    FieldStatements(fs) + ListenerDeclaration(ms) + MethodBlocks(ms)
  }

  /** `public void inject(final Host target, View root)`, annotated @Override. */
  function InjectMethod(t: TypeElement, body: seq<Statement>): MethodSpec {
    MethodSpec("inject", true, true, true,
               [ParameterSpec(t.typeName, "target", true), ParameterSpec(MethodBindings.VIEW, "root", false)],
               body)
  }

  /** The companion class for a ProxyClass in a given state. */
  function Generate(s: ProxyState): JavaFile {
    var t := s.typeElement;
    JavaFile(t.packageName,
             TypeSpec(t.simpleName + SUFFIX, true, InterfaceType(IPROXY, t.typeName),
                      InjectMethod(t, InjectBody(s.bindViews, s.methods))))
  }

  /** The name by which the companion can be loaded: its package, a dot, its class name. */
  function CompanionQualifiedName(f: JavaFile): string {
    if f.packageName == "" then f.typeSpec.name else f.packageName + "." + f.typeSpec.name
  }

  lemma FieldStatementsSnoc(fs: seq<FieldViewBinding>, i: nat)
    requires i < |fs|
    ensures FieldStatements(fs[..i + 1]) == FieldStatements(fs[..i]) + [AssignStatement(fs[i])]
  {
    assert fs[..i + 1][..i] == fs[..i];
  }

  lemma RegistrationsSnoc(ids: seq<int32>, k: nat)
    requires k < |ids|
    ensures Registrations(ids[..k + 1]) == Registrations(ids[..k]) + [Register(ids[k])]
  {
    assert ids[..k + 1][..k] == ids[..k];
  }

  lemma ListenerBlockAppended(head: seq<Statement>, before: seq<Statement>, blockStart: seq<Statement>,
                              body: seq<Statement>, ms: seq<MethodViewBinding>, j: nat, arg: string, k: nat)
    requires j < |ms| && k == |ms[j].ids| && arg == ForwardedArgument(ms[j])
    requires before == head + MethodBlocks(ms[..j])
    requires blockStart == before + [SetListener(ms[j].methodName, arg)]
    requires body == blockStart + Registrations(ms[j].ids[..k])
    ensures body == head + MethodBlocks(ms[..j + 1])
  {
    assert ms[j].ids[..k] == ms[j].ids;
    MethodBlocksSnoc(ms, j);
  }

  lemma MethodBlocksSnoc(ms: seq<MethodViewBinding>, j: nat)
    requires j < |ms|
    ensures MethodBlocks(ms[..j + 1]) == MethodBlocks(ms[..j]) + ListenerBlock(ms[j])
  {
    assert ms[..j + 1][..j] == ms[..j];
  }

  // ---------------------------------------------------------------------------
  // Properties of the generated body

  /** Exactly one assignment per field binding, carrying its name, its type as the cast and its id. */
  lemma {:induction false} FieldStatementsAt(fs: seq<FieldViewBinding>)
    ensures |FieldStatements(fs)| == |fs|
    ensures forall i :: 0 <= i < |fs| ==> FieldStatements(fs)[i] == AssignStatement(fs[i])
  {
    if fs != [] {
      FieldStatementsAt(fs[..|fs| - 1]);
    }
  }

  /** One registration per id, in array order, duplicates included. */
  lemma {:induction false} RegistrationsAt(ids: seq<int32>)
    ensures |Registrations(ids)| == |ids|
    ensures forall i :: 0 <= i < |ids| ==> Registrations(ids)[i] == Register(ids[i])
  {
    if ids != [] {
      RegistrationsAt(ids[..|ids| - 1]);
    }
  }

  lemma {:induction false} MethodBlocksLength(ms: seq<MethodViewBinding>)
    ensures |MethodBlocks(ms)| == ListenerStatementCount(ms)
  {
    if ms != [] {
      MethodBlocksLength(ms[..|ms| - 1]);
      RegistrationsAt(ms[|ms| - 1].ids);
    }
  }

  /** The statement count: N fields, one declaration if M > 0, and 1 + |ids| per method binding. */
  lemma InjectBodyLength(fs: seq<FieldViewBinding>, ms: seq<MethodViewBinding>)
    ensures |InjectBody(fs, ms)| == |fs| + (if |ms| > 0 then 1 else 0) + ListenerStatementCount(ms)
  {
    FieldStatementsAt(fs);
    MethodBlocksLength(ms);
  }

  lemma {:induction false} FieldStatementsAppend(a: seq<FieldViewBinding>, b: seq<FieldViewBinding>)
    ensures FieldStatements(a + b) == FieldStatements(a) + FieldStatements(b)
  {
    FieldStatementsAt(a);
    FieldStatementsAt(b);
    FieldStatementsAt(a + b);
  }

  lemma {:induction false} MethodBlocksAppend(a: seq<MethodViewBinding>, b: seq<MethodViewBinding>)
    ensures MethodBlocks(a + b) == MethodBlocks(a) + MethodBlocks(b)
    decreases |b|
  {
    if b == [] {
      assert a + b == a;
    } else {
      var init, last := b[..|b| - 1], b[|b| - 1];
      var ab := a + b;
      assert ab[..|ab| - 1] == a + init;
      assert ab[|ab| - 1] == last;
      assert MethodBlocks(ab) == MethodBlocks(a + init) + ListenerBlock(last);
      MethodBlocksAppend(a, init);
      assert MethodBlocks(b) == MethodBlocks(init) + ListenerBlock(last);
    }
  }

  /** The listener blocks hold only listener assignments and registrations. */
  lemma {:induction false} MethodBlocksOnlyListenerStatements(ms: seq<MethodViewBinding>)
    ensures forall s :: s in MethodBlocks(ms) ==> s.SetListener? || s.Register?
  {
    if ms != [] {
      MethodBlocksOnlyListenerStatements(ms[..|ms| - 1]);
      RegistrationsAt(ms[|ms| - 1].ids);
    }
  }

  /**
   * The block of method binding j starts right after the blocks of the
   * bindings before it and is exactly its listener assignment followed by its
   * registrations: every registration uses the listener of its own block,
   * since no other assignment comes in between.
   */
  lemma MethodBlockAt(ms: seq<MethodViewBinding>, j: nat)
    requires j < |ms|
    ensures var off := |MethodBlocks(ms[..j])|;
            && off + |ListenerBlock(ms[j])| <= |MethodBlocks(ms)|
            && MethodBlocks(ms)[off .. off + |ListenerBlock(ms[j])|] == ListenerBlock(ms[j])
  {
    var x := ms[j];
    assert ms == ms[..j] + [x] + ms[j + 1..];
    MethodBlocksAppend(ms[..j] + [x], ms[j + 1..]);
    MethodBlocksAppend(ms[..j], [x]);
    MethodBlocksSingleton(x);
  }

  /** The field assignments come first, in iteration order, and appear nowhere else. */
  lemma InjectBodyFieldGroup(fs: seq<FieldViewBinding>, ms: seq<MethodViewBinding>)
    ensures |fs| <= |InjectBody(fs, ms)|
    ensures forall i :: 0 <= i < |fs| ==> InjectBody(fs, ms)[i] == AssignStatement(fs[i])
    ensures forall i :: |fs| <= i < |InjectBody(fs, ms)| ==> !InjectBody(fs, ms)[i].AssignField?
  {
    var tail := ListenerDeclaration(ms) + MethodBlocks(ms);
    assert InjectBody(fs, ms) == FieldStatements(fs) + tail;
    FieldStatementsAt(fs);
    MethodBlocksOnlyListenerStatements(ms);
    assert forall s :: s in tail ==> !s.AssignField?;
  }

  /** The listener variable is declared once, right after the assignments, exactly when there is a method binding. */
  lemma InjectBodyListenerDeclaration(fs: seq<FieldViewBinding>, ms: seq<MethodViewBinding>)
    ensures DeclListener in InjectBody(fs, ms) <==> |ms| > 0
    ensures multiset(InjectBody(fs, ms))[DeclListener] == if |ms| > 0 then 1 else 0
    ensures |ms| > 0 ==> |fs| < |InjectBody(fs, ms)| && InjectBody(fs, ms)[|fs|] == DeclListener
  {
    var a, l, b := FieldStatements(fs), ListenerDeclaration(ms), MethodBlocks(ms);
    assert DeclListener !in a by {
      FieldStatementsAt(fs);
    }
    assert DeclListener !in b by {
      MethodBlocksOnlyListenerStatements(ms);
    }
    assert InjectBody(fs, ms) == a + l + b;
    assert multiset(a + l + b) == multiset(a) + multiset(l) + multiset(b);
  }

  /**
   * The block of method binding j sits after the assignments, the
   * declaration and the blocks of the bindings iterated before it.
   */
  lemma InjectBodyMethodBlock(fs: seq<FieldViewBinding>, ms: seq<MethodViewBinding>, j: nat)
    requires j < |ms|
    ensures var off := |fs| + 1 + |MethodBlocks(ms[..j])|;
            && off + |ListenerBlock(ms[j])| <= |InjectBody(fs, ms)|
            && InjectBody(fs, ms)[off .. off + |ListenerBlock(ms[j])|] == ListenerBlock(ms[j])
  {
    var head := FieldStatements(fs) + ListenerDeclaration(ms);
    assert |head| == |fs| + 1;
    assert InjectBody(fs, ms) == head + MethodBlocks(ms);
    MethodBlockAt(ms, j);
  }

  /** Where the last element of s sits in a permutation s' of s, and what remains of both without it. */
  lemma PermutationSplit<T>(s: seq<T>, s': seq<T>) returns (i: nat)
    requires |s| > 0 && multiset(s) == multiset(s')
    ensures i < |s'| && s'[i] == s[|s| - 1]
    ensures multiset(s[..|s| - 1]) == multiset(s'[..i] + s'[i + 1..])
  {
    var n := |s| - 1;
    var x := s[n];
    assert x in multiset(s');
    i :| 0 <= i < |s'| && s'[i] == x;
    assert s' == s'[..i] + [x] + s'[i + 1..];
    assert s == s[..n] + [x];
    var rest, rest' := multiset(s[..n]), multiset(s'[..i] + s'[i + 1..]);
    assert rest + multiset{x} == rest' + multiset{x};
    assert rest == (rest + multiset{x}) - multiset{x};
    assert rest' == (rest' + multiset{x}) - multiset{x};
  }

  lemma MethodBlocksSingleton(x: MethodViewBinding)
    ensures MethodBlocks([x]) == ListenerBlock(x)
  {
    var s := [x];
    assert s[..|s| - 1] == [] && s[|s| - 1] == x;
    assert MethodBlocks(s) == MethodBlocks([]) + ListenerBlock(x);
  }

  lemma MultisetOfSplice<T>(a: seq<T>, b: seq<T>, c: seq<T>)
    ensures multiset(a + b + c) == multiset(a + c) + multiset(b)
  {
  }

  lemma FieldStatementsWithout(fs: seq<FieldViewBinding>, i: nat)
    requires i < |fs|
    ensures multiset(FieldStatements(fs)) == multiset(FieldStatements(fs[..i] + fs[i + 1..])) + multiset{AssignStatement(fs[i])}
  {
    var pre, x, post := fs[..i], fs[i], fs[i + 1..];
    var a, b, c := FieldStatements(pre), FieldStatements([x]), FieldStatements(post);
    assert FieldStatements(fs) == a + b + c by {
      assert fs == pre + [x] + post;
      FieldStatementsAppend(pre + [x], post);
      FieldStatementsAppend(pre, [x]);
    }
    assert FieldStatements(pre + post) == a + c by {
      FieldStatementsAppend(pre, post);
    }
    assert b == [AssignStatement(x)];
    MultisetOfSplice(a, b, c);
  }

  lemma MethodBlocksSplice(pre: seq<MethodViewBinding>, x: MethodViewBinding, post: seq<MethodViewBinding>)
    ensures multiset(MethodBlocks(pre + [x] + post)) == multiset(MethodBlocks(pre + post)) + multiset(ListenerBlock(x))
  {
    var a, b, c := MethodBlocks(pre), MethodBlocks([x]), MethodBlocks(post);
    assert MethodBlocks(pre + [x] + post) == a + b + c by {
      MethodBlocksAppend(pre + [x], post);
      MethodBlocksAppend(pre, [x]);
    }
    assert MethodBlocks(pre + post) == a + c by {
      MethodBlocksAppend(pre, post);
    }
    MethodBlocksSingleton(x);
    MultisetOfSplice(a, b, c);
  }

  /** Reordering the field bindings reorders the assignments and nothing else. */
  lemma {:induction false} FieldStatementsPermutation(fs: seq<FieldViewBinding>, fs': seq<FieldViewBinding>)
    requires multiset(fs) == multiset(fs')
    ensures multiset(FieldStatements(fs)) == multiset(FieldStatements(fs'))
    decreases |fs|
  {
    if fs == [] {
      assert |multiset(fs')| == 0;
    } else {
      var n := |fs| - 1;
      var i := PermutationSplit(fs, fs');
      FieldStatementsPermutation(fs[..n], fs'[..i] + fs'[i + 1..]);
      FieldStatementsWithout(fs', i);
      assert FieldStatements(fs) == FieldStatements(fs[..n]) + [AssignStatement(fs[n])];
    }
  }

  /** Reordering the method bindings reorders whole blocks and nothing else. */
  lemma {:induction false} MethodBlocksPermutation(ms: seq<MethodViewBinding>, ms': seq<MethodViewBinding>)
    requires multiset(ms) == multiset(ms')
    ensures multiset(MethodBlocks(ms)) == multiset(MethodBlocks(ms'))
    decreases |ms|
  {
    if ms == [] {
      assert |multiset(ms')| == 0;
    } else {
      var n := |ms| - 1;
      var i := PermutationSplit(ms, ms');
      MethodBlocksPermutation(ms[..n], ms'[..i] + ms'[i + 1..]);
      assert ms' == ms'[..i] + [ms'[i]] + ms'[i + 1..];
      MethodBlocksSplice(ms'[..i], ms'[i], ms'[i + 1..]);
      assert MethodBlocks(ms) == MethodBlocks(ms[..n]) + ListenerBlock(ms[n]);
    }
  }

  /**
   * The collections are hash sets, so iteration order is unspecified: any
   * two iteration orders of the same bindings give the same statements, up
   * to order.
   */
  lemma InjectBodyOrderIndependent(fs: seq<FieldViewBinding>, fs': seq<FieldViewBinding>,
                                   ms: seq<MethodViewBinding>, ms': seq<MethodViewBinding>)
    requires multiset(fs) == multiset(fs') && multiset(ms) == multiset(ms')
    ensures multiset(InjectBody(fs, ms)) == multiset(InjectBody(fs', ms'))
  {
    FieldStatementsPermutation(fs, fs');
    MethodBlocksPermutation(ms, ms');
    assert |ms| == |multiset(ms)| == |ms'|;
  }

  /** The declared type of the first parameter named `name`, if any. */
  function ParameterType(ps: seq<ParameterSpec>, name: string): Option<string> {
    if ps == [] then None
    else if ps[0].name == name then Some(ps[0].typeName)
    else ParameterType(ps[1..], name)
  }

  /** A name has a declared type exactly when some parameter bears it. */
  lemma {:induction false} ParameterTypeFound(ps: seq<ParameterSpec>, name: string)
    ensures ParameterType(ps, name).Some? <==> exists i :: 0 <= i < |ps| && ps[i].name == name
    decreases |ps|
  {
    if ps != [] {
      ParameterTypeFound(ps[1..], name);
      if ParameterType(ps[1..], name).Some? {
        var i :| 0 <= i < |ps[1..]| && ps[1..][i].name == name;
        assert ps[i + 1].name == name;
      }
      if ps[0].name != name && exists i :: 0 <= i < |ps| && ps[i].name == name {
        var i :| 0 <= i < |ps| && ps[i].name == name;
        assert ps[1..][i - 1].name == name;
      }
    }
  }

  /**
   * The declared type of a name the callback's body can see: its own
   * parameter, or, since the listener is an anonymous class inside `inject`,
   * one of that method's parameters.
   */
  function ScopeType(inject: MethodSpec, name: string): Option<string> {
    if name == ON_CLICK_PARAMETER then Some(MethodBindings.VIEW) else ParameterType(inject.parameters, name)
  }

  /**
   * The generated call has no argument, or one that names a parameter visible
   * in the callback. The local `listener` is visible there too but never
   * usable: it is not definitely assigned before the first callback, and with
   * two or more method bindings it is reassigned, so not effectively final.
   */
  predicate ArgumentInScope(inject: MethodSpec, argText: string) {
    argText == "" || ScopeType(inject, argText).Some?
  }

  /** The generated call hands the clicked view to the handler. */
  predicate PassesClickedView(argText: string) {
    argText == ON_CLICK_PARAMETER
  }

  /**
   * The generated call forwards the handler's own parameter name, while the
   * callback's parameter is always `view`. With no parameter the call has no
   * argument. With one, the clicked view is passed exactly when the parameter
   * is named `view`. The name is a parameter in scope exactly when it is
   * `view`, `target` or `root` (`listener`, also visible, is never usable). A parameter named `root` gets inject's root view, a View like
   * the handler expects but not the clicked one; `root` is not declared
   * final, so capturing it needs Java 8. A parameter named `target` gets the
   * host object itself, whose type is the host's, so the call type-checks
   * only when the host class is a View.
   */
  lemma ForwardedArgumentBinding(e: MethodElement, s: ProxyState)
    requires NewMethodViewBinding(e).Success?
    ensures |e.parameters| == 0 ==> ForwardedArgument(NewMethodViewBinding(e).value) == ""
    ensures |e.parameters| == 1 ==> ForwardedArgument(NewMethodViewBinding(e).value) == e.parameters[0].simpleName
    ensures |e.parameters| == 1 ==>
              (PassesClickedView(ForwardedArgument(NewMethodViewBinding(e).value)) <==> e.parameters[0].simpleName == ON_CLICK_PARAMETER)
    ensures |e.parameters| == 1 && e.parameters[0].simpleName != "" ==>
              (ArgumentInScope(Generate(s).typeSpec.inject, ForwardedArgument(NewMethodViewBinding(e).value))
               <==> e.parameters[0].simpleName in {ON_CLICK_PARAMETER, "target", "root"})
    ensures |e.parameters| == 1 && e.parameters[0].simpleName == "root" ==>
              ForwardedArgument(NewMethodViewBinding(e).value) == Generate(s).typeSpec.inject.parameters[1].name
              && ScopeType(Generate(s).typeSpec.inject, "root") == Some(MethodBindings.VIEW)
              && !Generate(s).typeSpec.inject.parameters[1].isFinal
    ensures |e.parameters| == 1 && e.parameters[0].simpleName == "target" ==>
              ForwardedArgument(NewMethodViewBinding(e).value) == Generate(s).typeSpec.inject.parameters[0].name
              && ScopeType(Generate(s).typeSpec.inject, "target") == Some(s.typeElement.typeName)
              && Generate(s).typeSpec.inject.parameters[0].isFinal
  {
    var ps := Generate(s).typeSpec.inject.parameters;
    assert ps[0].name == "target" && ps[1].name == "root";
    assert "target"[0] != "root"[0] && "view"[0] != "root"[0] && "view"[0] != "target"[0];
    assert ParameterType(ps, "root") == ParameterType(ps[1..], "root");
    assert ps[1..][0] == ps[1];
    if |e.parameters| == 1 {
      ParameterTypeFound(ps, e.parameters[0].simpleName);
    }
  }

  /**
   * For a top-level host class (its binary name is its qualified name), when
   * the target's runtime class is the host itself, the companion is found
   * where the runtime looks for it: the generator's and the runtime's
   * suffixes agree. The runtime names the target's own class, so for an
   * instance of a subclass of the host it looks for the subclass's companion.
   */
  lemma CompanionNameMatchesRuntime(s: ProxyState)
    requires var t := s.typeElement;
             t.qualifiedName == if t.packageName == "" then t.simpleName else t.packageName + "." + t.simpleName
    ensures CompanionQualifiedName(Generate(s)) == ProxyToolApi.CompanionClassName(s.typeElement.qualifiedName)
  {
    var t := s.typeElement;
    if t.packageName != "" {
      assert t.packageName + "." + (t.simpleName + SUFFIX) == t.packageName + "." + t.simpleName + SUFFIX;
    }
  }

  /**
   * For a host nested in a class `outer`, the two names differ: the
   * companion is named after the simple name, while the runtime looks for the
   * binary name, `outer$simple` in the host's package.
   */
  lemma NestedHostCompanionNotFound(s: ProxyState, outer: string)
    requires outer != ""
    ensures var t := s.typeElement;
            var binaryName := (if t.packageName == "" then "" else t.packageName + ".") + outer + "$" + t.simpleName;
            CompanionQualifiedName(Generate(s)) != ProxyToolApi.CompanionClassName(binaryName)
  {
    var t := s.typeElement;
    var binaryName := (if t.packageName == "" then "" else t.packageName + ".") + outer + "$" + t.simpleName;
    assert |ProxyToolApi.CompanionClassName(binaryName)| > |CompanionQualifiedName(Generate(s))|;
  }

  /**
   * Any two hosts of one package that share a simple name, such as two
   * classes both nested as `Inner` in different outer classes, get companions
   * of the same qualified name, although the hosts themselves are distinct.
   */
  lemma NestedHostsShareCompanionName(a: ProxyState, b: ProxyState)
    requires a.typeElement.qualifiedName != b.typeElement.qualifiedName
    requires a.typeElement.packageName == b.typeElement.packageName
    requires a.typeElement.simpleName == b.typeElement.simpleName
    ensures CompanionQualifiedName(Generate(a)) == CompanionQualifiedName(Generate(b))
  {
  }

  // ---------------------------------------------------------------------------
  // The mutable aggregate

  class ProxyClass {
    /** The host class this aggregate stands for. */
    const typeElement: TypeElement
    /** The field bindings (a HashSet with identity equality in the source). */
    var bindViews: seq<FieldViewBinding>
    /** The method bindings (likewise). */
    var methods: seq<MethodViewBinding>

    constructor (typeElement: TypeElement)
      ensures this.typeElement == typeElement
      ensures bindViews == [] && methods == []
    {
      this.typeElement := typeElement;
      bindViews := [];
      methods := [];
    }

    function State(): ProxyState
      reads this
    {
      ProxyState(typeElement, bindViews, methods)
    }

    /** add(FieldViewBinding): a fresh binding always grows the field collection by one. */
    method AddField(b: FieldViewBinding)
      modifies this`bindViews
      ensures bindViews == old(bindViews) + [b]
      ensures methods == old(methods)
    {
      bindViews := bindViews + [b];
    }

    /** add(MethodViewBinding): a fresh binding always grows the method collection by one. */
    method AddMethod(b: MethodViewBinding)
      modifies this`methods
      ensures methods == old(methods) + [b]
      ensures bindViews == old(bindViews)
    {
      methods := methods + [b];
    }

    /**
     * generateProxy: the field assignments, the listener declaration when
     * there is a method binding, then for each method binding its listener
     * assignment followed by one registration per id.
     */
    method GenerateProxy() returns (file: JavaFile)
      ensures file == Generate(State())
      ensures file.packageName == typeElement.packageName
      ensures file.typeSpec.name == typeElement.simpleName + SUFFIX && file.typeSpec.isPublic
      ensures file.typeSpec.superinterface == InterfaceType(IPROXY, typeElement.typeName)
      ensures file.typeSpec.inject.isPublic && file.typeSpec.inject.overrides && file.typeSpec.inject.returnsVoid
      ensures file.typeSpec.inject.parameters ==
                [ParameterSpec(typeElement.typeName, "target", true), ParameterSpec(MethodBindings.VIEW, "root", false)]
    {
      var fs, ms := bindViews, methods;
      var body: seq<Statement> := [];
      var i := 0;
      while i < |fs|
        invariant 0 <= i <= |fs|
        invariant body == FieldStatements(fs[..i])
      {
        var model := fs[i];
        body := body + [AssignField(model.variableName, model.typeMirror, model.resId)];
        FieldStatementsSnoc(fs, i);
        i := i + 1;
      }
      assert fs[..i] == fs;
      if |ms| > 0 {
        body := body + [DeclListener];
      }
      ghost var head := body;
      var j := 0;
      while j < |ms|
        invariant 0 <= j <= |ms|
        invariant head == FieldStatements(fs) + ListenerDeclaration(ms)
        invariant body == head + MethodBlocks(ms[..j])
      {
        var m := ms[j];
        var ids := m.ids;
        var arg := if m.IsParameterExist() then m.parameterName.value else "";
        assert arg == ForwardedArgument(m);
        ghost var before := body;
        body := body + [SetListener(m.methodName, arg)];
        ghost var blockStart := body;
        var k := 0;
        while k < |ids|
          invariant 0 <= k <= |ids|
          invariant body == blockStart + Registrations(ids[..k])
        {
          body := body + [Register(ids[k])];
          RegistrationsSnoc(ids, k);
          k := k + 1;
        }
        ListenerBlockAppended(head, before, blockStart, body, ms, j, arg, k);
        j := j + 1;
      }
      assert ms[..j] == ms;
      assert body == InjectBody(bindViews, methods);
      var inject := MethodSpec("inject", true, true, true,
                               [ParameterSpec(typeElement.typeName, "target", true),
                                ParameterSpec(MethodBindings.VIEW, "root", false)],
                               body);
      var finderClass := TypeSpec(typeElement.simpleName + SUFFIX, true,
                                  InterfaceType(IPROXY, typeElement.typeName), inject);
      assert inject == InjectMethod(typeElement, InjectBody(bindViews, methods));
      file := JavaFile(typeElement.packageName, finderClass);
      assert file == Generate(State());
    }
  }
}
