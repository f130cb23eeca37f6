/**
 * The validator the processor runs on every annotated member before turning
 * it into a binding.
 */
module Validator {
  import opened Elements

  /** java.lang.reflect.Modifier.PRIVATE, an int, statically imported by the processor. */
  const PRIVATE: int := 0x0002
  /** java.lang.reflect.Modifier.STATIC, likewise. */
  const STATIC: int := 0x0008

  /** The values a Set<Modifier> can be asked about: an enum constant, or a boxed int. */
  datatype JavaObject = ModifierConstant(modifier: Modifier) | BoxedInteger(value: int)

  /** Set.contains(o): some element equals o. An enum constant never equals an Integer. */
  function SetContains(s: set<Modifier>, o: JavaObject): (r: bool)
    ensures r <==> exists m :: m in s && ModifierConstant(m) == o
  {
    match o
    case ModifierConstant(m) => m in s
    case BoxedInteger(_) => false
  }

  /** The modifier rule as written: the set is asked about the int constants, boxed. */
  predicate ModifierRuleFires(m: Member) {
    SetContains(m.modifiers, BoxedInteger(PRIVATE)) || SetContains(m.modifiers, BoxedInteger(STATIC))
  }

  /** The namespace rule: the enclosing qualified name starts with "android." or "java.", dot included. */
  predicate InFrameworkNamespace(qualifiedName: string) {
    "android." <= qualifiedName || "java." <= qualifiedName
  }

  /** What the validator accepts, stated independently of the order of its checks. */
  predicate Admissible(m: Member) {
    m.enclosing.kind == Class && !InFrameworkNamespace(m.enclosing.qualifiedName)
  }

  predicate IsNamespaceError(d: Diagnostic) {
    d.kind.InAndroidPackage? || d.kind.InJavaPackage?
  }

  /**
   * The messages the validator prints, in order: the modifier rule and the
   * kind rule both report and go on; the namespace rules report and stop,
   * the android one first.
   */
  function ValidationDiagnostics(a: Annotation, m: Member): seq<Diagnostic> {
    var qualifiedName := m.enclosing.qualifiedName;
    (if ModifierRuleFires(m) then [Error(PrivateOrStatic(a), AtMember(m))] else [])
    + (if m.enclosing.kind != Class then [Error(NotInClass(a), AtType(m.enclosing))] else [])
    + (if "android." <= qualifiedName then [Error(InAndroidPackage(a), AtMember(m))]
       else if "java." <= qualifiedName then [Error(InJavaPackage(a), AtMember(m))]
       else [])
  }

  /**
   * isValid: clears a flag on each failing check that carries on, returns
   * false at once on a namespace failure, and prints one message per
   * failing check it reaches.
   */
  method IsValid(a: Annotation, element: Member) returns (valid: bool, emitted: seq<Diagnostic>)
    ensures emitted == ValidationDiagnostics(a, element)
    ensures valid <==> Admissible(element)
    ensures valid <==> emitted == []
  {
    valid := true;
    emitted := [];
    var enclosingElement := element.enclosing;
    var qualifiedName := enclosingElement.qualifiedName;
    if SetContains(element.modifiers, BoxedInteger(PRIVATE)) || SetContains(element.modifiers, BoxedInteger(STATIC)) {
      emitted := emitted + [Error(PrivateOrStatic(a), AtMember(element))];
      valid := false;
    }
    if enclosingElement.kind != Class {
      emitted := emitted + [Error(NotInClass(a), AtType(enclosingElement))];
      valid := false;
    }
    if "android." <= qualifiedName {
      emitted := emitted + [Error(InAndroidPackage(a), AtMember(element))];
      valid := false;
      return;
    }
    if "java." <= qualifiedName {
      emitted := emitted + [Error(InJavaPackage(a), AtMember(element))];
      valid := false;
      return;
    }
  }

  /** The validator rejects exactly when it prints something. */
  lemma RejectsIffReports(a: Annotation, m: Member)
    ensures Admissible(m) <==> ValidationDiagnostics(a, m) == []
  {
  }

  /**
   * The private/static rule never fires: a set of enum modifiers never
   * contains a boxed int, so a private or static member is not rejected for it.
   */
  lemma ModifierRuleNeverFires(a: Annotation, m: Member)
    ensures !ModifierRuleFires(m)
    ensures forall d :: d in ValidationDiagnostics(a, m) ==> !d.kind.PrivateOrStatic?
    ensures (Private in m.modifiers && Static in m.modifiers && m.enclosing.kind == Class
             && !InFrameworkNamespace(m.enclosing.qualifiedName)) ==> ValidationDiagnostics(a, m) == []
  {
  }

  /** At most one namespace message, and the android check wins when both prefixes could apply. */
  lemma AtMostOneNamespaceError(a: Annotation, m: Member)
    ensures forall i, j :: 0 <= i < j < |ValidationDiagnostics(a, m)| ==>
              !(IsNamespaceError(ValidationDiagnostics(a, m)[i]) && IsNamespaceError(ValidationDiagnostics(a, m)[j]))
    ensures "android." <= m.enclosing.qualifiedName ==> Error(InAndroidPackage(a), AtMember(m)) in ValidationDiagnostics(a, m)
    ensures "android." <= m.enclosing.qualifiedName ==> Error(InJavaPackage(a), AtMember(m)) !in ValidationDiagnostics(a, m)
  {
  }

  /** A member of an interface, an enum, an annotation type or a record is rejected, the message attributed to that type. */
  lemma NonClassRejected(a: Annotation, m: Member)
    requires m.enclosing.kind != Class
    ensures !Admissible(m)
    ensures Error(NotInClass(a), AtType(m.enclosing)) in ValidationDiagnostics(a, m)
  {
  }

  /** The dot belongs to the prefix: classes under javax.* and androidx.* are admitted. */
  lemma DotIsPartOfPrefix(m: Member)
    requires m.enclosing.kind == Class
    requires "javax" <= m.enclosing.qualifiedName || "androidx" <= m.enclosing.qualifiedName
    ensures Admissible(m)
  {
    var q := m.enclosing.qualifiedName;
    if "javax" <= q {
      assert q[4] == 'x';
    } else {
      assert q[7] == 'x';
    }
  }
}
