/** The descriptor built for each @OnClick method, with its parameter-shape rule. */
module MethodBindings {
  import opened Wrappers
  import opened Elements

  /** The type text a handler's single parameter must have (the toString of ClassName android.view.View). */
  const VIEW: string := "android.view.View"

  /**
   * A method binding: the annotated element, its simple name, the ids from
   * the annotation exactly as written, and the name of its parameter when it
   * has one (the source keeps a flag and a possibly-null name; here the flag
   * is `IsParameterExist()`).
   */
  datatype MethodViewBinding = MethodViewBinding(
    element: MethodElement,
    methodName: string,
    ids: seq<int32>,
    parameterName: Option<string>)
  {
    predicate IsParameterExist() {
      parameterName.Some?
    }
  }

  /** The admissible handler shapes: no parameter, or exactly one whose type text is that of View. */
  predicate AcceptedShape(parameters: seq<Parameter>) {
    |parameters| == 0 || (|parameters| == 1 && parameters[0].typeName == VIEW)
  }

  /**
   * The constructor, which throws IllegalArgumentException in the source: the
   * parameter count is checked first, then the type of a single parameter, by
   * string equality (a subclass of View is refused).
   */
  function NewMethodViewBinding(e: MethodElement): (r: Result<MethodViewBinding, ErrorKind>)
    ensures r.Success? <==> AcceptedShape(e.parameters)
    ensures |e.parameters| > 1 ==> r == Failure(TooManyParameters)
    ensures |e.parameters| == 1 && e.parameters[0].typeName != VIEW ==> r == Failure(ParameterNotView)
    ensures r.Success? ==> r.value.element == e && r.value.methodName == e.member.simpleName && r.value.ids == e.ids
    ensures r.Success? ==> (r.value.IsParameterExist() <==> |e.parameters| == 1)
    ensures r.Success? && |e.parameters| == 1 ==> r.value.parameterName == Some(e.parameters[0].simpleName)
  {
    var ps := e.parameters;
    if |ps| > 1 then
      Failure(TooManyParameters)
    else if |ps| == 1 && ps[0].typeName != VIEW then
      Failure(ParameterNotView)
    else
      var name := if |ps| == 1 then Some(ps[0].simpleName) else None;
      Success(MethodViewBinding(e, e.member.simpleName, e.ids, name))
  }

  /** A handler taking a Button is refused although Button is a View: the test compares type text. */
  lemma SubclassParameterRefused(e: MethodElement)
    requires e.parameters == [Parameter("view", "android.widget.Button")]
    ensures NewMethodViewBinding(e) == Failure(ParameterNotView)
  {
  }

  /** The count check runs before any type check: two View parameters fail on the count. */
  lemma CountCheckedBeforeType(e: MethodElement, p: Parameter, q: Parameter)
    requires e.parameters == [p, q]
    requires p.typeName == VIEW && q.typeName == VIEW
    ensures NewMethodViewBinding(e) == Failure(TooManyParameters)
  {
  }
}
