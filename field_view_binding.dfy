/** The descriptor built for each @ViewById field. */
module FieldBindings {
  import opened Elements

  /**
   * A field binding: the annotated element, the resource id from the
   * annotation, the field's simple name and its declared type. The class has
   * no equality of its own, so two bindings built from equal data are still
   * two bindings; collections of them are sequences in this model.
   */
  datatype FieldViewBinding = FieldViewBinding(
    element: FieldElement,
    resId: int32,
    variableName: string,
    typeMirror: string)

  /** The constructor: total, copies the annotation value, the name and the type verbatim. */
  function NewFieldViewBinding(e: FieldElement): (b: FieldViewBinding)
    ensures b.element == e
    ensures b.resId == e.resId
    ensures b.variableName == e.member.simpleName
    ensures b.typeMirror == e.typeName
  {
    FieldViewBinding(e, e.resId, e.member.simpleName, e.typeName)
  }

  /** Construction loses nothing: the element is recovered from the binding, so distinct fields give distinct bindings. */
  lemma NewFieldViewBindingInjective(e1: FieldElement, e2: FieldElement)
    ensures NewFieldViewBinding(e1) == NewFieldViewBinding(e2) <==> e1 == e2
  {
  }
}
