/**
 * The annotation processor itself: the map of per-host aggregates it keeps
 * across rounds, the three helpers that fill it, and the round driver that
 * scans the annotated members, writes one companion per host and clears the
 * map.
 */
module Processor {
  import opened Wrappers
  import opened Elements
  import opened Validator
  import opened FieldBindings
  import opened MethodBindings
  import opened ProxyClasses
  import opened Rounds

  /** The order in which a HashMap's entries are visited: some listing of its keys, each once. */
  method IterationOrder(keys: set<string>) returns (order: seq<string>)
    ensures Enumerates(order, keys)
  {
    order := [];
    var remaining := keys;
    while remaining != {}
      invariant remaining <= keys
      invariant forall k | k in order :: k in keys && k !in remaining
      invariant forall k | k in keys && k !in remaining :: k in order
      invariant Distinct(order)
      decreases |remaining|
    {
      var k :| k in remaining;
      DistinctSnoc(order, k);
      order := order + [k];
      remaining := remaining - {k};
    }
  }

  class ProxyToolProcessor {
    /** The aggregate of every host seen since the last emission, by qualified name. */
    var proxyClassMap: map<string, ProxyClass>
    /** The map as a value: each host's aggregate's current state. */
    ghost var registry: Registry

    /**
     * Every aggregate is filed under its own host's qualified name, and
     * `registry` holds the state of each.
     */
    ghost predicate Valid()
      reads this`proxyClassMap, this`registry, proxyClassMap.Values
    {
      registry.Keys == proxyClassMap.Keys
      && forall k | k in proxyClassMap ::
           proxyClassMap[k].typeElement.qualifiedName == k && proxyClassMap[k].State() == registry[k]
    }

    lemma ValidIsWellKeyed()
      requires Valid()
      ensures WellKeyed(registry)
    {
    }

    constructor ()
      ensures Valid() && registry == map[]
      ensures proxyClassMap == map[]
    {
      proxyClassMap := map[];
      registry := map[];
    }

    /**
     * getProxyClass: the aggregate of the member's enclosing class, created
     * empty and filed under its qualified name the first time that class is
     * seen; every other entry is left as it was.
     */
    method GetProxyClass(element: Member) returns (proxyClass: ProxyClass)
      requires Valid()
      modifies this`proxyClassMap, this`registry
      ensures Valid()
      ensures element.enclosing.qualifiedName in proxyClassMap
      ensures proxyClass == proxyClassMap[element.enclosing.qualifiedName]
      ensures forall k | k in old(proxyClassMap) :: k in proxyClassMap && proxyClassMap[k] == old(proxyClassMap[k])
      ensures element.enclosing.qualifiedName !in old(proxyClassMap) ==> fresh(proxyClass)
      ensures proxyClass in old(proxyClassMap.Values) || fresh(proxyClass)
      ensures forall v | v in proxyClassMap.Values :: v in old(proxyClassMap.Values) || v == proxyClass
      ensures registry == GetOrCreate(old(registry), element.enclosing)
    {
      var classElement := element.enclosing;
      var qualifiedName := classElement.qualifiedName;
      if qualifiedName in proxyClassMap {
        proxyClass := proxyClassMap[qualifiedName];
      } else {
        proxyClass := new ProxyClass(classElement);
        proxyClassMap := proxyClassMap[qualifiedName := proxyClass];
        registry := registry[qualifiedName := proxyClass.State()];
      }
    }

    /** parseViewById: the field's binding is appended to its host's aggregate. */
    method ParseViewById(element: FieldElement)
      requires Valid()
      modifies this`proxyClassMap, this`registry, proxyClassMap.Values
      ensures Valid()
      ensures forall v | v in proxyClassMap.Values :: v in old(proxyClassMap.Values) || fresh(v)
      ensures registry == RegisterField(old(registry), NewFieldViewBinding(element))
    {
      var proxyClass := GetProxyClass(element.member);
      var bindView := NewFieldViewBinding(element);
      AppendField(element.member.enclosing.qualifiedName, proxyClass, bindView);
    }

    /** Appends a field binding to the aggregate filed under q, keeping the registry in step. */
    method AppendField(q: string, proxyClass: ProxyClass, b: FieldViewBinding)
      requires Valid() && q in proxyClassMap && proxyClassMap[q] == proxyClass
      modifies this`registry, proxyClass
      ensures Valid()
      ensures registry == old(registry)[q := old(registry)[q].(bindViews := old(registry)[q].bindViews + [b])]
    {
      proxyClass.AddField(b);
      registry := registry[q := registry[q].(bindViews := registry[q].bindViews + [b])];
      forall k | k in proxyClassMap && k != q
        ensures proxyClassMap[k].State() == registry[k]
      {
        assert proxyClassMap[k] != proxyClass;
      }
    }

    /** Appends a click binding to the aggregate filed under q, keeping the registry in step. */
    method AppendMethod(q: string, proxyClass: ProxyClass, b: MethodViewBinding)
      requires Valid() && q in proxyClassMap && proxyClassMap[q] == proxyClass
      modifies this`registry, proxyClass
      ensures Valid()
      ensures registry == old(registry)[q := old(registry)[q].(methods := old(registry)[q].methods + [b])]
    {
      proxyClass.AddMethod(b);
      registry := registry[q := registry[q].(methods := registry[q].methods + [b])];
      forall k | k in proxyClassMap && k != q
        ensures proxyClassMap[k].State() == registry[k]
      {
        assert proxyClassMap[k] != proxyClass;
      }
    }

    /**
     * parseClick: the host's aggregate is looked up, and created if new,
     * before the binding is built; a binding that cannot be built escapes as
     * an exception and leaves the aggregate in the map.
     */
    method ParseClick(element: MethodElement) returns (thrown: Option<ErrorKind>)
      requires Valid()
      modifies this`proxyClassMap, this`registry, proxyClassMap.Values
      ensures Valid()
      ensures forall v | v in proxyClassMap.Values :: v in old(proxyClassMap.Values) || fresh(v)
      ensures thrown == ClickFailure(element)
      ensures registry == RegisterClick(old(registry), element)
    {
      var proxyClass := GetProxyClass(element.member);
      var bindView := NewMethodViewBinding(element);
      match bindView
      case Failure(k) =>
        thrown := Some(k);
      case Success(b) =>
        AppendMethod(element.member.enclosing.qualifiedName, proxyClass, b);
        thrown := None;
    }

    /**
     * The @ViewById loop of process: each field is validated, then bound;
     * the loop stops at the first field the validator rejects. `printed` is
     * what the loop prints.
     */
    method BindViewByIds(fieldElements: seq<FieldElement>) returns (completed: bool, printed: seq<Diagnostic>)
      requires Valid()
      modifies this`proxyClassMap, this`registry, proxyClassMap.Values
      ensures Valid()
      ensures forall v | v in proxyClassMap.Values :: v in old(proxyClassMap.Values) || fresh(v)
      ensures completed == ScanFields(old(registry), fieldElements).completed
      ensures registry == ScanFields(old(registry), fieldElements).registry
      ensures printed == ScanFields(old(registry), fieldElements).diagnostics
    {
      var i := 0;
      while i < |fieldElements|
        invariant 0 <= i <= |fieldElements|
        invariant Valid()
        invariant forall v | v in proxyClassMap.Values :: v in old(proxyClassMap.Values) || fresh(v)
        invariant ScanFields(old(registry), fieldElements[..i]).completed
        invariant ScanFields(old(registry), fieldElements[..i]).diagnostics == []
        invariant registry == ScanFields(old(registry), fieldElements[..i]).registry
      {
        var element := fieldElements[i];
        var valid, emitted := IsValid(ViewById, element.member);
        if !valid {
          ScanFieldsReject(old(registry), fieldElements, i);
          return false, emitted;
        }
        ScanFieldsAdmit(old(registry), fieldElements, i);
        ParseViewById(element);
        i := i + 1;
      }
      assert fieldElements[..i] == fieldElements;
      return true, [];
    }

    /**
     * One iteration of the @OnClick loop: the method is validated, then
     * bound; `bound` is false when the loop must stop, and `printed` is what
     * the iteration prints.
     */
    method BindOnClick(element: MethodElement) returns (bound: bool, printed: seq<Diagnostic>)
      requires Valid()
      modifies this`proxyClassMap, this`registry, proxyClassMap.Values
      ensures Valid()
      ensures forall v | v in proxyClassMap.Values :: v in old(proxyClassMap.Values) || fresh(v)
      ensures bound == ClickStep(old(registry), element).completed
      ensures printed == ClickStep(old(registry), element).diagnostics
      ensures registry == ClickStep(old(registry), element).registry
    {
      var valid, emitted := IsValid(OnClick, element.member);
      if !valid {
        return false, emitted;
      }
      var thrown := ParseClick(element);
      if thrown.Some? {
        return false, [Error(thrown.value, AtMember(element.member))];
      }
      return true, [];
    }

    /**
     * The @OnClick loop of process: each method is validated, then bound;
     * the loop stops at the first method the validator rejects, and at the
     * first whose binding cannot be built, printing the exception's message
     * attributed to that method. `printed` is what the loop prints.
     */
    method BindOnClicks(methodElements: seq<MethodElement>) returns (completed: bool, printed: seq<Diagnostic>)
      requires Valid()
      modifies this`proxyClassMap, this`registry, proxyClassMap.Values
      ensures Valid()
      ensures forall v | v in proxyClassMap.Values :: v in old(proxyClassMap.Values) || fresh(v)
      ensures completed == ScanClicks(old(registry), methodElements).completed
      ensures registry == ScanClicks(old(registry), methodElements).registry
      ensures printed == ScanClicks(old(registry), methodElements).diagnostics
    {
      ghost var start := registry;
      var j := 0;
      while j < |methodElements|
        invariant 0 <= j <= |methodElements|
        invariant Valid()
        invariant forall v | v in proxyClassMap.Values :: v in old(proxyClassMap.Values) || fresh(v)
        invariant ScanClicks(start, methodElements[..j]) == Scan(registry, [], true)
      {
        var bound, emitted := BindOnClick(methodElements[j]);
        ScanClicksStep(start, methodElements, j);
        if !bound {
          return false, emitted;
        }
        j := j + 1;
      }
      assert methodElements[..j] == methodElements;
      return true, [];
    }

    /**
     * The emission loop of process: one companion per aggregate, in the
     * map's iteration order; a write that fails (its host is in `failing`)
     * prints an unattributed error and the loop goes on.
     */
    method WriteCompanions(failing: set<string>) returns (order: seq<string>, printed: seq<Diagnostic>, files: seq<JavaFile>)
      requires Valid()
      ensures Enumerates(order, registry.Keys)
      ensures printed == WriteDiagnostics(order, failing)
      ensures files == EmittedFiles(registry, order, failing)
    {
      order := IterationOrder(proxyClassMap.Keys);
      printed, files := [], [];
      var i := 0;
      while i < |order|
        invariant 0 <= i <= |order|
        invariant printed == WriteDiagnostics(order[..i], failing)
        invariant files == EmittedFiles(registry, order[..i], failing)
      {
        var k := order[i];
        var file := proxyClassMap[k].GenerateProxy();
        LastSplit(order[..i + 1]);
        assert order[..i + 1][..i] == order[..i];
        EmissionNext(registry, order[..i], k, failing);
        if k in failing {
          printed := printed + [Error(WriteFailed, Unattributed)];
        } else {
          files := files + [file];
        }
        i := i + 1;
      }
      assert order[..i] == order;
    }

    /**
     * process: the @ViewById fields, then the @OnClick methods, each checked
     * and bound in turn; the round is abandoned at the first rejected member
     * or failed binding, keeping everything registered so far. A round that
     * gets through both loops writes one companion per host, in the map's
     * iteration order (the ghost `emitOrder`), then clears the map. The round
     * is always claimed. `printed` is what the round prints, `files` what it
     * writes.
     */
    method Process(fieldElements: seq<FieldElement>, methodElements: seq<MethodElement>, failing: set<string>)
      returns (claimed: bool, printed: seq<Diagnostic>, files: seq<JavaFile>, ghost emitOrder: seq<string>)
      requires Valid()
      modifies this`proxyClassMap, this`registry, proxyClassMap.Values
      ensures claimed
      ensures Valid()
      ensures var round := ScanRound(old(registry), fieldElements, methodElements);
              !round.completed ==>
                printed == round.diagnostics && files == [] && registry == round.registry && emitOrder == []
      ensures var round := ScanRound(old(registry), fieldElements, methodElements);
              round.completed ==>
                Enumerates(emitOrder, round.registry.Keys)
                && printed == WriteDiagnostics(emitOrder, failing)
                && files == EmittedFiles(round.registry, emitOrder, failing)
                && proxyClassMap == map[] && registry == map[]
    {
      claimed := true;
      files := [];
      emitOrder := [];
      ghost var round := ScanRound(registry, fieldElements, methodElements);
      ghost var fieldScan := ScanFields(registry, fieldElements);
      var completed;
      completed, printed := BindViewByIds(fieldElements);
      if !completed {
        assert round == fieldScan;
        return;
      }
      ghost var clickScan := ScanClicks(fieldScan.registry, methodElements);
      assert round == Scan(clickScan.registry, fieldScan.diagnostics + clickScan.diagnostics, clickScan.completed);
      completed, printed := BindOnClicks(methodElements);
      if !completed {
        ScanFieldsReports(old(registry), fieldElements);
        return;
      }
      var order;
      order, printed, files := WriteCompanions(failing);
      emitOrder := order;
      proxyClassMap := map[];
      registry := map[];
    }
  }
}
