/**
 * One processing round, as values: the registry of per-host aggregates the
 * processor keeps between rounds, the fail-fast scan of the annotated
 * fields and methods, and the emission of one companion per registered host.
 */
module Rounds {
  import opened Wrappers
  import opened Elements
  import opened Validator
  import opened FieldBindings
  import opened MethodBindings
  import opened ProxyClasses

  /** The processor's map from a host's qualified name to its aggregate, as values. */
  type Registry = map<string, ProxyState>

  /** Every aggregate is filed under its own host's qualified name. */
  predicate WellKeyed(reg: Registry) {
    forall k | k in reg :: reg[k].typeElement.qualifiedName == k
  }

  /** `after` keeps every host of `before` and only appends to its collections. */
  predicate Extends(after: Registry, before: Registry) {
    forall k | k in before ::
      k in after && after[k].typeElement == before[k].typeElement
      && before[k].bindViews <= after[k].bindViews && before[k].methods <= after[k].methods
  }

  /** getProxyClass: the host's aggregate, created empty on first sight and kept afterwards. */
  function GetOrCreate(reg: Registry, t: TypeElement): Registry {
    if t.qualifiedName in reg then reg else reg[t.qualifiedName := ProxyState(t, [], [])]
  }

  /** getProxyClass keeps every entry, and adds the host, empty, when it is new. */
  lemma GetOrCreateKeeps(reg: Registry, t: TypeElement)
    ensures t.qualifiedName in GetOrCreate(reg, t)
    ensures GetOrCreate(reg, t).Keys == reg.Keys + {t.qualifiedName}
    ensures forall k | k in reg :: GetOrCreate(reg, t)[k] == reg[k]
    ensures t.qualifiedName !in reg ==> GetOrCreate(reg, t)[t.qualifiedName] == ProxyState(t, [], [])
    ensures WellKeyed(reg) ==> WellKeyed(GetOrCreate(reg, t))
  {
  }

  /** parseViewById: the binding is appended to its host's field collection. */
  function RegisterField(reg: Registry, b: FieldViewBinding): Registry {
    var q := b.element.member.enclosing.qualifiedName;
    var r := GetOrCreate(reg, b.element.member.enclosing);
    r[q := r[q].(bindViews := r[q].bindViews + [b])]
  }

  /**
   * parseClick: the host is looked up (and registered) first; only then is
   * the binding built, and it is appended only if it could be built.
   */
  function RegisterClick(reg: Registry, e: MethodElement): Registry {
    var q := e.member.enclosing.qualifiedName;
    var r := GetOrCreate(reg, e.member.enclosing);
    match NewMethodViewBinding(e)
    case Success(b) => r[q := r[q].(methods := r[q].methods + [b])]
    case Failure(_) => r
  }

  /** The exception parseClick lets escape, if any. */
  function ClickFailure(e: MethodElement): Option<ErrorKind> {
    match NewMethodViewBinding(e)
    case Success(_) => None
    case Failure(k) => Some(k)
  }

  /** The registry after a scan, the messages printed, and whether the scan ran to the end. */
  datatype Scan = Scan(registry: Registry, diagnostics: seq<Diagnostic>, completed: bool)

  /** The @ViewById loop over a prefix of the fields: it stops at the first invalid field. */
  function ScanFields(reg: Registry, es: seq<FieldElement>): Scan
    decreases |es|
  {
    if es == [] then Scan(reg, [], true)
    else
      var s := ScanFields(reg, es[..|es| - 1]);
      var e := es[|es| - 1];
      if !s.completed then s
      else if !Admissible(e.member) then
        Scan(s.registry, s.diagnostics + ValidationDiagnostics(ViewById, e.member), false)
      else
        Scan(RegisterField(s.registry, NewFieldViewBinding(e)), s.diagnostics, true)
  }

  /**
   * The @OnClick loop over a prefix of the methods: it stops at the first
   * invalid method, and at the first method whose binding cannot be built,
   * after printing one message attributed to that method.
   */
  function ScanClicks(reg: Registry, es: seq<MethodElement>): Scan
    decreases |es|
  {
    if es == [] then Scan(reg, [], true)
    else
      var s := ScanClicks(reg, es[..|es| - 1]);
      var e := es[|es| - 1];
      if !s.completed then s
      else if !Admissible(e.member) then
        Scan(s.registry, s.diagnostics + ValidationDiagnostics(OnClick, e.member), false)
      else
        match ClickFailure(e)
        case None => Scan(RegisterClick(s.registry, e), s.diagnostics, true)
        case Some(k) => Scan(RegisterClick(s.registry, e), s.diagnostics + [Error(k, AtMember(e.member))], false)
  }

  /** Both loops of one round; the methods are scanned only when every field passed. */
  function ScanRound(reg: Registry, fs: seq<FieldElement>, ms: seq<MethodElement>): Scan {
    var a := ScanFields(reg, fs);
    if !a.completed then a
    else
      var b := ScanClicks(a.registry, ms);
      Scan(b.registry, a.diagnostics + b.diagnostics, b.completed)
  }

  /** The companions written, host by host in the given order; a failing write produces none. */
  function EmittedFiles(reg: Registry, order: seq<string>, failing: set<string>): seq<JavaFile>
    requires forall k | k in order :: k in reg
    decreases |order|
  {
    if order == [] then []
    else
      var init := EmittedFiles(reg, order[..|order| - 1], failing);
      var k := order[|order| - 1];
      if k in failing then init else init + [Generate(reg[k])]
  }

  /** The messages of the emission loop: one unattributed error per failing write. */
  function WriteDiagnostics(order: seq<string>, failing: set<string>): seq<Diagnostic>
    decreases |order|
  {
    if order == [] then []
    else
      var init := WriteDiagnostics(order[..|order| - 1], failing);
      if order[|order| - 1] in failing then init + [Error(WriteFailed, Unattributed)] else init
  }

  /** No element occurs twice. */
  predicate Distinct<T(==)>(s: seq<T>) {
    forall i, j | 0 <= i < j < |s| :: s[i] != s[j]
  }

  lemma DistinctSnoc<T>(s: seq<T>, x: T)
    requires Distinct(s) && x !in s
    ensures Distinct(s + [x])
  {
  }

  /** `order` lists every key of `keys` exactly once: an iteration order of the map. */
  predicate Enumerates(order: seq<string>, keys: set<string>) {
    Distinct(order)
    && (forall k | k in order :: k in keys) && (forall k | k in keys :: k in order)
  }

  /** The hosts of a sequence of annotated fields. */
  function FieldHosts(es: seq<FieldElement>): set<string>
    decreases |es|
  {
    if es == [] then {} else FieldHosts(es[..|es| - 1]) + {es[|es| - 1].member.enclosing.qualifiedName}
  }

  /** The hosts of a sequence of annotated methods. */
  function ClickHosts(es: seq<MethodElement>): set<string>
    decreases |es|
  {
    if es == [] then {} else ClickHosts(es[..|es| - 1]) + {es[|es| - 1].member.enclosing.qualifiedName}
  }

  /** The binding of field `e` sits in its host's aggregate. */
  predicate FieldRegistered(reg: Registry, e: FieldElement) {
    var q := e.member.enclosing.qualifiedName;
    q in reg && NewFieldViewBinding(e) in reg[q].bindViews
  }

  /** The binding of method `e` could be built and sits in its host's aggregate. */
  predicate ClickRegistered(reg: Registry, e: MethodElement) {
    var q := e.member.enclosing.qualifiedName;
    NewMethodViewBinding(e).Success? && q in reg && NewMethodViewBinding(e).value in reg[q].methods
  }

  // ---------------------------------------------------------------------------
  // Fail-fast

  /** Once the field loop has stopped, the later fields change nothing. */
  lemma {:induction false} ScanFieldsHalts(reg: Registry, es: seq<FieldElement>, j: nat)
    requires j <= |es|
    requires !ScanFields(reg, es[..j]).completed
    ensures ScanFields(reg, es) == ScanFields(reg, es[..j])
    decreases |es|
  {
    if j < |es| {
      var init := es[..|es| - 1];
      assert init[..j] == es[..j];
      ScanFieldsHalts(reg, init, j);
    } else {
      assert es[..j] == es;
    }
  }

  /** Once the method loop has stopped, the later methods change nothing. */
  lemma {:induction false} ScanClicksHalts(reg: Registry, es: seq<MethodElement>, j: nat)
    requires j <= |es|
    requires !ScanClicks(reg, es[..j]).completed
    ensures ScanClicks(reg, es) == ScanClicks(reg, es[..j])
    decreases |es|
  {
    if j < |es| {
      var init := es[..|es| - 1];
      assert init[..j] == es[..j];
      ScanClicksHalts(reg, init, j);
    } else {
      assert es[..j] == es;
    }
  }

  /** The field loop runs to the end exactly when it prints nothing. */
  lemma {:induction false} ScanFieldsReports(reg: Registry, es: seq<FieldElement>)
    ensures ScanFields(reg, es).completed <==> ScanFields(reg, es).diagnostics == []
    decreases |es|
  {
    if es != [] {
      ScanFieldsReports(reg, es[..|es| - 1]);
      RejectsIffReports(ViewById, es[|es| - 1].member);
    }
  }

  /** The method loop runs to the end exactly when it prints nothing. */
  lemma {:induction false} ScanClicksReports(reg: Registry, es: seq<MethodElement>)
    ensures ScanClicks(reg, es).completed <==> ScanClicks(reg, es).diagnostics == []
    decreases |es|
  {
    if es != [] {
      ScanClicksReports(reg, es[..|es| - 1]);
      RejectsIffReports(OnClick, es[|es| - 1].member);
    }
  }

  /** A round goes on to emission exactly when its scan printed nothing. */
  lemma ScanRoundReports(reg: Registry, fs: seq<FieldElement>, ms: seq<MethodElement>)
    ensures ScanRound(reg, fs, ms).completed <==> ScanRound(reg, fs, ms).diagnostics == []
  {
    ScanFieldsReports(reg, fs);
    ScanClicksReports(ScanFields(reg, fs).registry, ms);
  }

  // ---------------------------------------------------------------------------
  // The registry only grows

  lemma ExtendsTransitive(a: Registry, b: Registry, c: Registry)
    requires Extends(b, a) && Extends(c, b)
    ensures Extends(c, a)
  {
    forall k | k in a
      ensures a[k].bindViews <= c[k].bindViews && a[k].methods <= c[k].methods
    {
      assert a[k].bindViews == b[k].bindViews[..|a[k].bindViews|];
      assert a[k].methods == b[k].methods[..|a[k].methods|];
    }
  }

  lemma RegisterFieldGrows(reg: Registry, e: FieldElement)
    requires WellKeyed(reg)
    ensures WellKeyed(RegisterField(reg, NewFieldViewBinding(e)))
    ensures Extends(RegisterField(reg, NewFieldViewBinding(e)), reg)
    ensures FieldRegistered(RegisterField(reg, NewFieldViewBinding(e)), e)
    ensures RegisterField(reg, NewFieldViewBinding(e)).Keys == reg.Keys + {e.member.enclosing.qualifiedName}
    ensures forall k | k in reg && k != e.member.enclosing.qualifiedName :: RegisterField(reg, NewFieldViewBinding(e))[k] == reg[k]
  {
    GetOrCreateKeeps(reg, e.member.enclosing);
  }

  lemma RegisterClickGrows(reg: Registry, e: MethodElement)
    requires WellKeyed(reg)
    ensures WellKeyed(RegisterClick(reg, e))
    ensures Extends(RegisterClick(reg, e), reg)
    ensures ClickFailure(e).None? ==> ClickRegistered(RegisterClick(reg, e), e)
    ensures RegisterClick(reg, e).Keys == reg.Keys + {e.member.enclosing.qualifiedName}
    ensures forall k | k in reg && k != e.member.enclosing.qualifiedName :: RegisterClick(reg, e)[k] == reg[k]
  {
    GetOrCreateKeeps(reg, e.member.enclosing);
    var q := e.member.enclosing.qualifiedName;
    var r := GetOrCreate(reg, e.member.enclosing);
    match NewMethodViewBinding(e)
    case Success(b) =>
      assert RegisterClick(reg, e) == r[q := r[q].(methods := r[q].methods + [b])];
    case Failure(_) =>
      assert RegisterClick(reg, e) == r;
  }

  lemma FieldStays(before: Registry, after: Registry, e: FieldElement)
    requires Extends(after, before) && FieldRegistered(before, e)
    ensures FieldRegistered(after, e)
  {
    var q := e.member.enclosing.qualifiedName;
    var i :| 0 <= i < |before[q].bindViews| && before[q].bindViews[i] == NewFieldViewBinding(e);
    assert after[q].bindViews[i] == NewFieldViewBinding(e);
  }

  lemma ClickStays(before: Registry, after: Registry, e: MethodElement)
    requires Extends(after, before) && ClickRegistered(before, e)
    ensures ClickRegistered(after, e)
  {
    var q := e.member.enclosing.qualifiedName;
    var i :| 0 <= i < |before[q].methods| && before[q].methods[i] == NewMethodViewBinding(e).value;
    assert after[q].methods[i] == NewMethodViewBinding(e).value;
  }

  lemma LastSplit<T>(s: seq<T>)
    requires s != []
    ensures s == s[..|s| - 1] + [s[|s| - 1]]
  {
  }

  /** One step of the registration proofs: a registered prefix stays registered as the registry grows. */
  lemma FieldRegisteredAllSnoc(init: seq<FieldElement>, e: FieldElement, before: Registry, after: Registry)
    requires forall i | 0 <= i < |init| :: Admissible(init[i].member) && FieldRegistered(before, init[i])
    requires Extends(after, before) && Admissible(e.member) && FieldRegistered(after, e)
    ensures forall i | 0 <= i < |init + [e]| :: Admissible((init + [e])[i].member) && FieldRegistered(after, (init + [e])[i])
  {
    forall i | 0 <= i < |init| ensures FieldRegistered(after, init[i]) {
      FieldStays(before, after, init[i]);
    }
  }

  lemma ClickRegisteredAllSnoc(init: seq<MethodElement>, e: MethodElement, before: Registry, after: Registry)
    requires forall i | 0 <= i < |init| :: Admissible(init[i].member) && ClickRegistered(before, init[i])
    requires Extends(after, before) && Admissible(e.member) && ClickRegistered(after, e)
    ensures forall i | 0 <= i < |init + [e]| :: Admissible((init + [e])[i].member) && ClickRegistered(after, (init + [e])[i])
  {
    forall i | 0 <= i < |init| ensures ClickRegistered(after, init[i]) {
      ClickStays(before, after, init[i]);
    }
  }

  /** The field loop, stopped or not, keeps every host it found and only appends to their collections. */
  lemma {:induction false} ScanFieldsExtends(reg: Registry, es: seq<FieldElement>)
    requires WellKeyed(reg)
    ensures WellKeyed(ScanFields(reg, es).registry)
    ensures Extends(ScanFields(reg, es).registry, reg)
    decreases |es|
  {
    if es != [] {
      var s := ScanFields(reg, es[..|es| - 1]);
      ScanFieldsExtends(reg, es[..|es| - 1]);
      var e := es[|es| - 1];
      if s.completed && Admissible(e.member) {
        RegisterFieldGrows(s.registry, e);
        ExtendsTransitive(reg, s.registry, RegisterField(s.registry, NewFieldViewBinding(e)));
      }
    }
  }

  /** The field loop adds no host but those of the fields it saw, and all of them when it completes. */
  lemma {:induction false} ScanFieldsHosts(reg: Registry, es: seq<FieldElement>)
    requires WellKeyed(reg)
    ensures ScanFields(reg, es).registry.Keys <= reg.Keys + FieldHosts(es)
    ensures ScanFields(reg, es).completed ==> ScanFields(reg, es).registry.Keys == reg.Keys + FieldHosts(es)
    decreases |es|
  {
    if es != [] {
      var s := ScanFields(reg, es[..|es| - 1]);
      ScanFieldsHosts(reg, es[..|es| - 1]);
      ScanFieldsExtends(reg, es[..|es| - 1]);
      var e := es[|es| - 1];
      if s.completed && Admissible(e.member) {
        RegisterFieldGrows(s.registry, e);
      }
    }
  }

  /** A completed field loop admitted every field and registered its binding. */
  lemma {:induction false} ScanFieldsRegistersAll(reg: Registry, es: seq<FieldElement>)
    requires WellKeyed(reg)
    requires ScanFields(reg, es).completed
    ensures forall i | 0 <= i < |es| :: Admissible(es[i].member) && FieldRegistered(ScanFields(reg, es).registry, es[i])
    decreases |es|
  {
    if es != [] {
      var init := es[..|es| - 1];
      var e := es[|es| - 1];
      var s := ScanFields(reg, init);
      assert s.completed && Admissible(e.member);
      ScanFieldsRegistersAll(reg, init);
      ScanFieldsExtends(reg, init);
      var r := RegisterField(s.registry, NewFieldViewBinding(e));
      assert ScanFields(reg, es).registry == r;
      RegisterFieldGrows(s.registry, e);
      LastSplit(es);
      FieldRegisteredAllSnoc(init, e, s.registry, r);
    }
  }

  /** The method loop counterpart of ScanFieldsExtends. */
  lemma {:induction false} ScanClicksExtends(reg: Registry, es: seq<MethodElement>)
    requires WellKeyed(reg)
    ensures WellKeyed(ScanClicks(reg, es).registry)
    ensures Extends(ScanClicks(reg, es).registry, reg)
    decreases |es|
  {
    if es != [] {
      var s := ScanClicks(reg, es[..|es| - 1]);
      ScanClicksExtends(reg, es[..|es| - 1]);
      var e := es[|es| - 1];
      if s.completed && Admissible(e.member) {
        RegisterClickGrows(s.registry, e);
        ExtendsTransitive(reg, s.registry, RegisterClick(s.registry, e));
      }
    }
  }

  /** The method loop counterpart of ScanFieldsHosts. */
  lemma {:induction false} ScanClicksHosts(reg: Registry, es: seq<MethodElement>)
    requires WellKeyed(reg)
    ensures ScanClicks(reg, es).registry.Keys <= reg.Keys + ClickHosts(es)
    ensures ScanClicks(reg, es).completed ==> ScanClicks(reg, es).registry.Keys == reg.Keys + ClickHosts(es)
    decreases |es|
  {
    if es != [] {
      var s := ScanClicks(reg, es[..|es| - 1]);
      ScanClicksHosts(reg, es[..|es| - 1]);
      ScanClicksExtends(reg, es[..|es| - 1]);
      var e := es[|es| - 1];
      if s.completed && Admissible(e.member) {
        RegisterClickGrows(s.registry, e);
      }
    }
  }

  /** A completed method loop admitted every method and registered its binding, which could be built. */
  lemma {:induction false} ScanClicksRegistersAll(reg: Registry, es: seq<MethodElement>)
    requires WellKeyed(reg)
    requires ScanClicks(reg, es).completed
    ensures forall i | 0 <= i < |es| :: Admissible(es[i].member) && ClickRegistered(ScanClicks(reg, es).registry, es[i])
    decreases |es|
  {
    if es != [] {
      var init := es[..|es| - 1];
      var e := es[|es| - 1];
      var s := ScanClicks(reg, init);
      assert s.completed && Admissible(e.member);
      ScanClicksRegistersAll(reg, init);
      ScanClicksExtends(reg, init);
      var r := RegisterClick(s.registry, e);
      assert ScanClicks(reg, es).registry == r;
      RegisterClickGrows(s.registry, e);
      LastSplit(es);
      ClickRegisteredAllSnoc(init, e, s.registry, r);
    }
  }

  /**
   * A round keeps every aggregate it started with, whether or not it was
   * aborted; when it completes, every annotated field and method has its
   * binding in its host's aggregate and the hosts are exactly the old ones
   * plus those of the annotated members.
   */
  lemma ScanRoundGrows(reg: Registry, fs: seq<FieldElement>, ms: seq<MethodElement>)
    requires WellKeyed(reg)
    ensures WellKeyed(ScanRound(reg, fs, ms).registry)
    ensures Extends(ScanRound(reg, fs, ms).registry, reg)
    ensures ScanRound(reg, fs, ms).registry.Keys <= reg.Keys + FieldHosts(fs) + ClickHosts(ms)
    ensures ScanRound(reg, fs, ms).completed ==>
              ScanRound(reg, fs, ms).registry.Keys == reg.Keys + FieldHosts(fs) + ClickHosts(ms)
              && (forall i | 0 <= i < |fs| :: FieldRegistered(ScanRound(reg, fs, ms).registry, fs[i]))
              && (forall i | 0 <= i < |ms| :: ClickRegistered(ScanRound(reg, fs, ms).registry, ms[i]))
  {
    var a := ScanFields(reg, fs);
    ScanFieldsExtends(reg, fs);
    ScanFieldsHosts(reg, fs);
    if a.completed {
      var b := ScanClicks(a.registry, ms);
      ScanFieldsRegistersAll(reg, fs);
      ScanClicksExtends(a.registry, ms);
      ScanClicksHosts(a.registry, ms);
      ExtendsTransitive(reg, a.registry, b.registry);
      if b.completed {
        ScanClicksRegistersAll(a.registry, ms);
        forall i | 0 <= i < |fs| ensures FieldRegistered(b.registry, fs[i]) {
          FieldStays(a.registry, b.registry, fs[i]);
        }
      }
    }
  }

  /** What the aggregate filed under q held before the round: its field bindings, none if absent. */
  function FieldsBefore(reg: Registry, q: string): seq<FieldViewBinding> {
    if q in reg then reg[q].bindViews else []
  }

  /** What the aggregate filed under q held before the round: its method bindings, none if absent. */
  function MethodsBefore(reg: Registry, q: string): seq<MethodViewBinding> {
    if q in reg then reg[q].methods else []
  }

  /** The bindings of the fields hosted by q, one per field, in scan order. */
  function FieldsOf(es: seq<FieldElement>, q: string): (r: seq<FieldViewBinding>)
    ensures |r| <= |es|
    ensures forall b | b in r :: b.element in es && b.element.member.enclosing.qualifiedName == q
    decreases |es|
  {
    if es == [] then []
    else
      var e := es[|es| - 1];
      FieldsOf(es[..|es| - 1], q) + (if e.member.enclosing.qualifiedName == q then [NewFieldViewBinding(e)] else [])
  }

  /** The bindings of the methods hosted by q that can be built, one per method, in scan order. */
  function ClicksOf(es: seq<MethodElement>, q: string): (r: seq<MethodViewBinding>)
    ensures |r| <= |es|
    ensures forall b | b in r :: b.element in es && b.element.member.enclosing.qualifiedName == q
    decreases |es|
  {
    if es == [] then []
    else
      var e := es[|es| - 1];
      ClicksOf(es[..|es| - 1], q)
      + (if e.member.enclosing.qualifiedName == q && NewMethodViewBinding(e).Success? then [NewMethodViewBinding(e).value] else [])
  }

  /** One registration, seen from host q: only q's own aggregate grows, by the one binding. */
  lemma RegisterFieldAt(r: Registry, e: FieldElement, q: string)
    ensures var after := RegisterField(r, NewFieldViewBinding(e));
            (q in after <==> q in r || q == e.member.enclosing.qualifiedName)
            && FieldsBefore(after, q)
               == FieldsBefore(r, q) + (if q == e.member.enclosing.qualifiedName then [NewFieldViewBinding(e)] else [])
            && MethodsBefore(after, q) == MethodsBefore(r, q)
  {
    GetOrCreateKeeps(r, e.member.enclosing);
  }

  /** The method counterpart of RegisterFieldAt, for a method whose binding can be built. */
  lemma RegisterClickAt(r: Registry, e: MethodElement, q: string)
    requires NewMethodViewBinding(e).Success?
    ensures var after := RegisterClick(r, e);
            (q in after <==> q in r || q == e.member.enclosing.qualifiedName)
            && MethodsBefore(after, q)
               == MethodsBefore(r, q) + (if q == e.member.enclosing.qualifiedName then [NewMethodViewBinding(e).value] else [])
            && FieldsBefore(after, q) == FieldsBefore(r, q)
  {
    GetOrCreateKeeps(r, e.member.enclosing);
  }

  /**
   * A completed field loop leaves in each aggregate exactly what it held
   * before, followed by one binding per field of that host, in scan order;
   * the method bindings are untouched. A host without an aggregate afterwards
   * had none before and has no field in the scan.
   */
  lemma {:induction false} ScanFieldsContents(reg: Registry, es: seq<FieldElement>, q: string)
    requires ScanFields(reg, es).completed
    ensures q in ScanFields(reg, es).registry ==>
              ScanFields(reg, es).registry[q].bindViews == FieldsBefore(reg, q) + FieldsOf(es, q)
              && ScanFields(reg, es).registry[q].methods == MethodsBefore(reg, q)
    ensures q !in ScanFields(reg, es).registry ==> q !in reg && FieldsOf(es, q) == []
    decreases |es|
  {
    if es != [] {
      var init := es[..|es| - 1];
      var e := es[|es| - 1];
      var s := ScanFields(reg, init);
      ScanFieldsContents(reg, init, q);
      var extra := if e.member.enclosing.qualifiedName == q then [NewFieldViewBinding(e)] else [];
      assert FieldsOf(es, q) == FieldsOf(init, q) + extra;
      assert FieldsBefore(s.registry, q) == FieldsBefore(reg, q) + FieldsOf(init, q);
      assert ScanFields(reg, es).registry == RegisterField(s.registry, NewFieldViewBinding(e));
      RegisterFieldAt(s.registry, e, q);
      AppendAssociative(FieldsBefore(reg, q), FieldsOf(init, q), extra);
    }
  }

  /**
   * A completed method loop leaves in each aggregate exactly what it held
   * before, followed by one binding per method of that host, in scan order;
   * the field bindings are untouched.
   */
  lemma {:induction false} ScanClicksContents(reg: Registry, es: seq<MethodElement>, q: string)
    requires ScanClicks(reg, es).completed
    ensures q in ScanClicks(reg, es).registry ==>
              ScanClicks(reg, es).registry[q].methods == MethodsBefore(reg, q) + ClicksOf(es, q)
              && ScanClicks(reg, es).registry[q].bindViews == FieldsBefore(reg, q)
    ensures q !in ScanClicks(reg, es).registry ==> q !in reg && ClicksOf(es, q) == []
    decreases |es|
  {
    if es != [] {
      var init := es[..|es| - 1];
      var e := es[|es| - 1];
      var s := ScanClicks(reg, init);
      ScanClicksContents(reg, init, q);
      assert ClickFailure(e).None?;
      var extra := if e.member.enclosing.qualifiedName == q then [NewMethodViewBinding(e).value] else [];
      assert ClicksOf(es, q) == ClicksOf(init, q) + extra;
      assert MethodsBefore(s.registry, q) == MethodsBefore(reg, q) + ClicksOf(init, q);
      assert ScanClicks(reg, es).registry == RegisterClick(s.registry, e);
      RegisterClickAt(s.registry, e, q);
      AppendAssociative(MethodsBefore(reg, q), ClicksOf(init, q), extra);
    }
  }

  lemma AppendAssociative<T>(a: seq<T>, b: seq<T>, c: seq<T>)
    ensures (a + b) + c == a + (b + c)
  {
  }

  /**
   * A completed round leaves in each aggregate exactly what it held before,
   * then one binding per annotated field of that host and one per annotated
   * method of that host, each group in scan order, and nothing else.
   */
  lemma ScanRoundContents(reg: Registry, fs: seq<FieldElement>, ms: seq<MethodElement>, q: string)
    requires ScanRound(reg, fs, ms).completed
    ensures q in ScanRound(reg, fs, ms).registry ==>
              ScanRound(reg, fs, ms).registry[q].bindViews == FieldsBefore(reg, q) + FieldsOf(fs, q)
              && ScanRound(reg, fs, ms).registry[q].methods == MethodsBefore(reg, q) + ClicksOf(ms, q)
    ensures q !in ScanRound(reg, fs, ms).registry ==> q !in reg && FieldsOf(fs, q) == [] && ClicksOf(ms, q) == []
  {
    var a := ScanFields(reg, fs);
    assert a.completed;
    ScanFieldsContents(reg, fs, q);
    ScanClicksContents(a.registry, ms, q);
    if q !in a.registry {
      assert FieldsBefore(reg, q) + FieldsOf(fs, q) == [];
    }
  }

  /**
   * The companion of a host first seen in a completed round starts with one
   * assignment per annotated field of that host, in scan order, has no other
   * assignment, and holds N + [M > 0] + the listener statements of its M
   * method bindings.
   */
  lemma NewHostCompanion(reg: Registry, fs: seq<FieldElement>, ms: seq<MethodElement>, q: string)
    requires ScanRound(reg, fs, ms).completed && q in ScanRound(reg, fs, ms).registry && q !in reg
    ensures var body := Generate(ScanRound(reg, fs, ms).registry[q]).typeSpec.inject.body;
            |FieldsOf(fs, q)| <= |body|
            && (forall i | 0 <= i < |FieldsOf(fs, q)| :: body[i] == AssignStatement(FieldsOf(fs, q)[i]))
            && (forall i | |FieldsOf(fs, q)| <= i < |body| :: !body[i].AssignField?)
            && |body| == |FieldsOf(fs, q)| + (if |ClicksOf(ms, q)| > 0 then 1 else 0) + ListenerStatementCount(ClicksOf(ms, q))
  {
    ScanRoundContents(reg, fs, ms, q);
    var st := ScanRound(reg, fs, ms).registry[q];
    assert st.bindViews == FieldsOf(fs, q) && st.methods == ClicksOf(ms, q);
    InjectBodyFieldGroup(st.bindViews, st.methods);
    InjectBodyLength(st.bindViews, st.methods);
  }

  // ---------------------------------------------------------------------------
  // Emission

  /** Every host yields exactly one outcome: a written companion or one unattributed write error. */
  lemma {:induction false} EmissionAccounting(reg: Registry, order: seq<string>, failing: set<string>)
    requires forall k | k in order :: k in reg
    ensures |EmittedFiles(reg, order, failing)| + |WriteDiagnostics(order, failing)| == |order|
    ensures forall d | d in WriteDiagnostics(order, failing) :: d == Error(WriteFailed, Unattributed)
    decreases |order|
  {
    if order != [] {
      EmissionAccounting(reg, order[..|order| - 1], failing);
    }
  }

  /** A failing write costs only its own companion: every other host's companion is written. */
  lemma {:induction false} HealthyHostsWritten(reg: Registry, order: seq<string>, failing: set<string>)
    requires forall k | k in order :: k in reg
    ensures forall k | k in order && k !in failing :: Generate(reg[k]) in EmittedFiles(reg, order, failing)
    decreases |order|
  {
    if order != [] {
      var init := order[..|order| - 1];
      HealthyHostsWritten(reg, init, failing);
      forall k | k in order && k !in failing
        ensures Generate(reg[k]) in EmittedFiles(reg, order, failing)
      {
        if k != order[|order| - 1] {
          var i :| 0 <= i < |order| && order[i] == k;
          assert init[i] == k;
        }
      }
    }
  }

  /** Nothing is written but the companions of hosts whose write succeeds. */
  lemma {:induction false} OnlyHealthyHostsWritten(reg: Registry, order: seq<string>, failing: set<string>)
    requires forall k | k in order :: k in reg
    ensures forall f | f in EmittedFiles(reg, order, failing) ::
              exists k :: k in order && k !in failing && f == Generate(reg[k])
    decreases |order|
  {
    if order != [] {
      var init := order[..|order| - 1];
      OnlyHealthyHostsWritten(reg, init, failing);
      forall f | f in EmittedFiles(reg, order, failing)
        ensures exists k :: k in order && k !in failing && f == Generate(reg[k])
      {
        if f in EmittedFiles(reg, init, failing) {
          var k :| k in init && k !in failing && f == Generate(reg[k]);
          var i :| 0 <= i < |init| && init[i] == k;
          assert order[i] == k;
        } else {
          assert order[|order| - 1] in order;
        }
      }
    }
  }

  /** With no failing write, the companions come out one per host, in iteration order. */
  lemma {:induction false} CleanEmission(reg: Registry, order: seq<string>, failing: set<string>)
    requires forall k | k in order :: k in reg && k !in failing
    ensures WriteDiagnostics(order, failing) == []
    ensures |EmittedFiles(reg, order, failing)| == |order|
    ensures forall i | 0 <= i < |order| :: EmittedFiles(reg, order, failing)[i] == Generate(reg[order[i]])
    decreases |order|
  {
    if order != [] {
      var init := order[..|order| - 1];
      var last := order[|order| - 1];
      CleanEmission(reg, init, failing);
      LastSplit(order);
      EmissionNext(reg, init, last, failing);
      GeneratedPointwiseSnoc(reg, init, last, EmittedFiles(reg, init, failing));
    }
  }

  lemma GeneratedPointwiseSnoc(reg: Registry, init: seq<string>, last: string, files: seq<JavaFile>)
    requires forall k | k in init :: k in reg
    requires last in reg
    requires |files| == |init| && forall i | 0 <= i < |init| :: files[i] == Generate(reg[init[i]])
    ensures forall i | 0 <= i < |init| + 1 :: (files + [Generate(reg[last])])[i] == Generate(reg[(init + [last])[i]])
  {
  }

  // ---------------------------------------------------------------------------
  // An aborted round is not rolled back

  /**
   * A round whose second @OnClick method takes two parameters stops with one
   * message, yet keeps both the field binding it already made and the empty
   * aggregate parseClick created for the method's host before the binding
   * failed. The next round, even one with no annotated member, completes and
   * goes on to write a companion for each of them: for Pad one whose inject
   * body is empty.
   */
  lemma AbortedRoundIsNotRolledBack(home: TypeElement, pad: TypeElement, title: FieldElement, tap: MethodElement)
    requires home == TypeElement(Class, "com.example.Home", "Home", "com.example", "com.example.Home")
    requires pad == TypeElement(Class, "com.example.Pad", "Pad", "com.example", "com.example.Pad")
    requires title == FieldElement(Member({}, home, "title"), "android.widget.TextView", 7)
    requires tap == MethodElement(Member({Public}, pad, "onTap"),
                                  [Parameter("a", MethodBindings.VIEW), Parameter("b", MethodBindings.VIEW)], [3])
    ensures !ScanRound(map[], [title], [tap]).completed
    ensures ScanRound(map[], [title], [tap]).diagnostics == [Error(TooManyParameters, AtMember(tap.member))]
    ensures ScanRound(map[], [title], [tap]).registry
            == map["com.example.Home" := ProxyState(home, [NewFieldViewBinding(title)], []),
                   "com.example.Pad" := ProxyState(pad, [], [])]
    ensures ScanRound(ScanRound(map[], [title], [tap]).registry, [], []).completed
    ensures Generate(ScanRound(map[], [title], [tap]).registry["com.example.Pad"]).typeSpec.inject.body == []
  {
    assert "com.example.Home" != "com.example.Pad" by {
      assert "com.example.Home"[12] != "com.example.Pad"[12];
    }
    assert Admissible(title.member) by {
      assert home.qualifiedName[0] == 'c';
    }
    assert Admissible(tap.member) by {
      assert pad.qualifiedName[0] == 'c';
    }
    assert [title][..0] == [];
    assert ScanFields(map[], [title][..0]) == Scan(map[], [], true);
    assert NewFieldViewBinding(title).element.member.enclosing == home;
    var created := GetOrCreate(map[], home);
    assert created == map["com.example.Home" := ProxyState(home, [], [])];
    assert created["com.example.Home"].bindViews + [NewFieldViewBinding(title)] == [NewFieldViewBinding(title)];
    assert RegisterField(map[], NewFieldViewBinding(title))
           == map["com.example.Home" := ProxyState(home, [NewFieldViewBinding(title)], [])];
    var first := ScanFields(map[], [title]);
    assert first == Scan(map["com.example.Home" := ProxyState(home, [NewFieldViewBinding(title)], [])], [], true);
    assert ClickFailure(tap) == Some(TooManyParameters);
    assert [tap][..0] == [];
    assert ScanClicks(first.registry, [tap][..0]) == Scan(first.registry, [], true);
    var second := ScanClicks(first.registry, [tap]);
    assert second == Scan(RegisterClick(first.registry, tap), [Error(TooManyParameters, AtMember(tap.member))], false);
  }

  // ---------------------------------------------------------------------------
  // Single steps, for the loops of the processor

  /** The field loop after one more field, admitted. */
  lemma ScanFieldsAdmit(reg: Registry, es: seq<FieldElement>, i: nat)
    requires i < |es| && ScanFields(reg, es[..i]).completed && Admissible(es[i].member)
    ensures ScanFields(reg, es[..i + 1])
            == Scan(RegisterField(ScanFields(reg, es[..i]).registry, NewFieldViewBinding(es[i])), ScanFields(reg, es[..i]).diagnostics, true)
  {
    assert es[..i + 1][..i] == es[..i];
  }

  /** The field loop after one more field, rejected: it stops there. */
  lemma ScanFieldsReject(reg: Registry, es: seq<FieldElement>, i: nat)
    requires i < |es| && ScanFields(reg, es[..i]).completed && !Admissible(es[i].member)
    ensures ScanFields(reg, es)
            == Scan(ScanFields(reg, es[..i]).registry,
                    ScanFields(reg, es[..i]).diagnostics + ValidationDiagnostics(ViewById, es[i].member), false)
  {
    assert es[..i + 1][..i] == es[..i];
    ScanFieldsHalts(reg, es, i + 1);
  }

  /** One iteration of the @OnClick loop on its own: validate, then bind. */
  function ClickStep(reg: Registry, e: MethodElement): Scan {
    if !Admissible(e.member) then Scan(reg, ValidationDiagnostics(OnClick, e.member), false)
    else
      match ClickFailure(e)
      case None => Scan(RegisterClick(reg, e), [], true)
      case Some(k) => Scan(RegisterClick(reg, e), [Error(k, AtMember(e.member))], false)
  }

  /**
   * The method loop after one more method, from a prefix that completed
   * silently: one step further, and if that step stops the loop, the end.
   */
  lemma ScanClicksStep(reg: Registry, es: seq<MethodElement>, i: nat)
    requires i < |es| && ScanClicks(reg, es[..i]).completed && ScanClicks(reg, es[..i]).diagnostics == []
    ensures ScanClicks(reg, es[..i + 1]) == ClickStep(ScanClicks(reg, es[..i]).registry, es[i])
    ensures !ClickStep(ScanClicks(reg, es[..i]).registry, es[i]).completed ==>
              ScanClicks(reg, es) == ClickStep(ScanClicks(reg, es[..i]).registry, es[i])
  {
    assert es[..i + 1][..i] == es[..i];
    if !ClickStep(ScanClicks(reg, es[..i]).registry, es[i]).completed {
      ScanClicksHalts(reg, es, i + 1);
    }
  }

  /** The emission loop after one more host. */
  lemma EmissionNext(reg: Registry, order: seq<string>, k: string, failing: set<string>)
    requires forall h | h in order :: h in reg
    requires k in reg
    ensures EmittedFiles(reg, order + [k], failing)
            == if k in failing then EmittedFiles(reg, order, failing) else EmittedFiles(reg, order, failing) + [Generate(reg[k])]
    ensures WriteDiagnostics(order + [k], failing)
            == if k in failing then WriteDiagnostics(order, failing) + [Error(WriteFailed, Unattributed)] else WriteDiagnostics(order, failing)
  {
    assert (order + [k])[..|order|] == order;
  }
}
