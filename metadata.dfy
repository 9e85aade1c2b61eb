/**
 * The metadata reader as immutable tables: the rows the extractor and the
 * registry read out of an ECMA-335 image, already split into fields. Blob
 * signatures appear decoded into their shape (section II.23.2 of ECMA-335)
 * and custom-attribute values appear decoded or marked as faulty; the
 * decoding of blobs and heaps itself is not part of this model.
 */
module Metadata {
  import opened Wrappers
  import opened SignatureTypes
  import opened Reflection

  /** The table a handle points into. */
  datatype HandleKind =
    | TypeDefinitionKind
    | TypeReferenceKind
    | TypeSpecificationKind
    | ExportedTypeKind
    | AssemblyReferenceKind
    | AssemblyFileKind
    | ModuleReferenceKind
    | ModuleDefinitionKind
    | MethodDefinitionKind
    | MemberReferenceKind

  /** An entity handle: a table and a 1-based row; row 0 is the nil handle. */
  datatype Handle = Handle(kind: HandleKind, row: nat)
  {
    predicate IsNil()
    {
      row == 0
    }
  }

  /** A type signature (section II.23.2.12 of ECMA-335), decoded into its shape. */
  datatype Sig =
    | PrimitiveSig(code: PrimitiveTypeCode)
    | ClassSig(handle: Handle)
    | SZArraySig(element: Sig)
    | PointerSig(element: Sig)
    | ByRefSig(element: Sig)
    | ArraySig(element: Sig, rank: nat)
    | GenericInstSig(open: Sig, args: seq<Sig>)
    | GenericTypeParameterSig(index: nat)
    | GenericMethodParameterSig(index: nat)
    | PinnedSig(element: Sig)
    | ModifiedSig(modifier: Sig, unmodified: Sig, isRequired: bool)
    | FunctionPointerSig

  /** A method or property signature: the return type and the parameter types. */
  datatype MethodSig = MethodSig(returnType: Sig, parameterTypes: seq<Sig>)

  /** Element-type codes a Constant row carries (section II.22.9 of ECMA-335). */
  const BooleanCode := 0x02
  const CharCode := 0x03
  const SByteCode := 0x04
  const ByteCode := 0x05
  const Int16Code := 0x06
  const UInt16Code := 0x07
  const Int32Code := 0x08
  const UInt32Code := 0x09
  const Int64Code := 0x0A
  const UInt64Code := 0x0B
  const SingleCode := 0x0C
  const DoubleCode := 0x0D
  const StringCode := 0x0E
  const NullReferenceCode := 0x12

  /** An unsigned 8-bit value, as a blob holds them. */
  newtype byte = x: int | 0 <= x < 256

  /** A Constant row: its type code and the bytes of its value blob. */
  datatype ConstantRow = ConstantRow(typeCode: int, blob: seq<byte>)

  /**
   * A CustomAttribute row: the constructor handle, the type that handle
   * leads to (a member reference's parent or a method's declaring type), and
   * the decoded value, None when decoding it faults.
   */
  datatype CustomAttributeRow = CustomAttributeRow(
    ctor: Handle,
    ctorParent: Handle,
    value: Option<CustomAttributeValue>)

  datatype CustomAttributeValue = CustomAttributeValue(fixedArguments: seq<AttributeArgument>, namedArguments: seq<AttributeArgument>)

  datatype GenericParameterRow = GenericParameterRow(name: string, attributes: bv32, constraints: seq<Handle>)

  /**
   * A Param row; a nil constant handle is None. Sequence 0 describes the
   * return value, sequence k the k-th parameter (section II.22.33 of ECMA-335).
   */
  datatype ParameterRow = ParameterRow(
    sequence: nat,
    name: string,
    attributes: bv32,
    defaultValue: Option<ConstantRow>,
    customAttributes: seq<CustomAttributeRow>)

  datatype MethodRow = MethodRow(
    name: string,
    attributes: bv32,
    customAttributes: seq<CustomAttributeRow>,
    genericParameters: seq<GenericParameterRow>,
    parameters: seq<ParameterRow>,
    signature: MethodSig)

  datatype FieldRow = FieldRow(
    name: string,
    attributes: bv32,
    signature: Sig,
    defaultValue: Option<ConstantRow>,
    customAttributes: seq<CustomAttributeRow>)

  datatype PropertyRow = PropertyRow(name: string, signature: MethodSig, customAttributes: seq<CustomAttributeRow>)

  datatype EventRow = EventRow(name: string, eventType: Handle, customAttributes: seq<CustomAttributeRow>)

  /** A TypeDef row with the member lists the reader enumerates for it. */
  datatype TypeDefinitionRow = TypeDefinitionRow(
    name: string,
    ns: string,
    attributes: bv32,
    declaringType: Handle,
    baseType: Handle,
    genericParameters: seq<GenericParameterRow>,
    customAttributes: seq<CustomAttributeRow>,
    interfaces: seq<Handle>,
    properties: seq<PropertyRow>,
    nestedTypes: seq<nat>,
    events: seq<EventRow>,
    methods: seq<MethodRow>,
    fields: seq<FieldRow>,
    namespaceDefinition: nat)

  datatype TypeReferenceRow = TypeReferenceRow(ns: string, name: string, scope: Handle)

  /** A namespace definition; handles are positive, 0 is nil. */
  datatype NamespaceRow = NamespaceRow(
    name: string,
    parent: nat,
    typeDefinitions: seq<nat>,
    exportedTypes: seq<nat>,
    namespaces: seq<nat>)

  /**
   * The tables. TypeDef row r (1-based) is typeDefinitions[r - 1]; the other
   * tables are keyed by row, and a row the map lacks is a malformed image.
   */
  datatype Reader = Reader(
    typeDefinitions: seq<TypeDefinitionRow>,
    typeReferences: map<nat, TypeReferenceRow>,
    typeSpecifications: map<nat, Sig>,
    exportedTypes: map<nat, Handle>,
    assemblyReferences: map<nat, string>,
    namespaceDefinitions: map<nat, NamespaceRow>,
    moduleName: string,
    moduleAttributes: seq<CustomAttributeRow>,
    assemblyName: string,
    assemblyAttributes: seq<CustomAttributeRow>)

  /**
   * An exported type that forwards to another exported type names an
   * earlier row, so following Implementation links ends.
   */
  predicate ExportsWellFounded(reader: Reader)
  {
    forall r :: r in reader.exportedTypes && reader.exportedTypes[r].kind == ExportedTypeKind
      ==> reader.exportedTypes[r].row < r
  }

  /** The TypeDef row behind a handle row, if the table has it. */
  function TypeDefinitionAt(reader: Reader, row: nat): (r: Result<TypeDefinitionRow, Exception>)
    ensures r.Ok? <==> 1 <= row <= |reader.typeDefinitions|
    ensures r.Ok? ==> r.value == reader.typeDefinitions[row - 1]
    ensures r.Err? ==> r.error == BadImageFormat
  {
    if 1 <= row <= |reader.typeDefinitions| then Ok(reader.typeDefinitions[row - 1]) else Err(BadImageFormat)
  }
}
