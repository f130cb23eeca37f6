/**
 * Abstract records standing for the parts of the compiler's element API
 * (javax.lang.model) that the processor reads, and for the diagnostics it
 * writes to the compiler's message channel.
 */
module Elements {

  /** A Java `int`. Resource ids are copied from annotations, never computed on. */
  newtype int32 = x: int | -0x8000_0000 <= x < 0x8000_0000

  /** javax.lang.model.element.Modifier: the enum a member's modifier set holds. */
  datatype Modifier =
    | Public | Protected | Private | Abstract | Default | Static
    | Final | Transient | Volatile | Synchronized | Native | Strictfp

  /** The kinds a type element (the declaration enclosing a member) can have. */
  datatype ElementKind = Class | Interface | Enum | AnnotationType | Record

  /**
   * The type element enclosing an annotated member: its kind, its qualified
   * name, its simple name, the qualified name of its package, and the text of
   * its type as the generator writes it.
   */
  datatype TypeElement = TypeElement(
    kind: ElementKind,
    qualifiedName: string,
    simpleName: string,
    packageName: string,
    typeName: string)

  /** What the validator reads off any annotated member. */
  datatype Member = Member(modifiers: set<Modifier>, enclosing: TypeElement, simpleName: string)

  /** A field carrying @ViewById(resId), with the text of its declared type. */
  datatype FieldElement = FieldElement(member: Member, typeName: string, resId: int32)

  /** A formal parameter of a method: its simple name and the text of its type. */
  datatype Parameter = Parameter(simpleName: string, typeName: string)

  /** A method carrying @OnClick(ids), with its formal parameters in order. */
  datatype MethodElement = MethodElement(member: Member, parameters: seq<Parameter>, ids: seq<int32>)

  /** The two binding annotations. */
  datatype Annotation = ViewById | OnClick

  /** The element an error message is attributed to (null for write failures). */
  datatype Attribution = AtMember(member: Member) | AtType(typeElement: TypeElement) | Unattributed

  /** Which rule an error reports; the message text itself is not modelled. */
  datatype ErrorKind =
    | PrivateOrStatic(annotation: Annotation)
    | NotInClass(annotation: Annotation)
    | InAndroidPackage(annotation: Annotation)
    | InJavaPackage(annotation: Annotation)
    | TooManyParameters
    | ParameterNotView
    | WriteFailed

  /** One ERROR-kind message printed to the compiler's message channel. */
  datatype Diagnostic = Error(kind: ErrorKind, at: Attribution)
}
