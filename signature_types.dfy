/**
 * SignatureTypeProvider: the callbacks the signature decoder invokes for
 * each shape of a type signature (section II.23.2 of ECMA-335), plus the
 * underlying-type table for enums and the System type table.
 */
module SignatureTypes {
  import opened Wrappers
  import opened Strings
  import opened Reflection

  /** PrimitiveTypeCode, with Undefined for a value outside the enumeration. */
  datatype PrimitiveTypeCode =
    | Boolean | Byte | Char | Double | Int16 | Int32 | Int64 | IntPtr | Object | SByte
    | Single | String | TypedReference | UInt16 | UInt32 | UInt64 | UIntPtr | Void
    | Undefined(value: int)

  /** The 19 names IsSystemType accepts. */
  const SystemTypes: seq<string> := [
    "Boolean", "Byte", "Char", "Double", "Int8", "UInt8", "Int16", "UInt16", "Int32", "UInt32",
    "Int64", "UInt64", "IntPtr", "Object", "Single", "String", "TypedReference", "UIntPtr", "Void"]

  /** Type.Name of the runtime type GetPrimitiveType maps a code to (typeof(sbyte).Name is "SByte"). */
  function RuntimeName(code: PrimitiveTypeCode): (r: Option<string>)
    ensures r.None? <==> code.Undefined?
  {
    match code
    case Boolean => Some("Boolean")
    case Byte => Some("Byte")
    case Char => Some("Char")
    case Double => Some("Double")
    case Int16 => Some("Int16")
    case Int32 => Some("Int32")
    case Int64 => Some("Int64")
    case IntPtr => Some("IntPtr")
    case Object => Some("Object")
    case SByte => Some("SByte")
    case Single => Some("Single")
    case String => Some("String")
    case TypedReference => Some("TypedReference")
    case UInt16 => Some("UInt16")
    case UInt32 => Some("UInt32")
    case UInt64 => Some("UInt64")
    case UIntPtr => Some("UIntPtr")
    case Void => Some("Void")
    case Undefined(_) => None
  }

  /** Distinct defined codes name distinct runtime types. */
  lemma {:induction false} RuntimeNameInjective(a: PrimitiveTypeCode, b: PrimitiveTypeCode)
    requires !a.Undefined? && RuntimeName(a) == RuntimeName(b)
    ensures a == b
  {
  }

  /** IsSystemType: namespace System and a name in the table. */
  predicate IsSystemType(t: TypeInfo)
    reads t, t.chain
    requires t.ElementRanked()
  {
    t.Namespace() == Some("System") && t.Name() in SystemTypes
  }

  /** The integral codes an enum can have as underlying type. */
  predicate IsIntegral(code: PrimitiveTypeCode)
  {
    code in {SByte, Byte, Int16, UInt16, Int32, UInt32, Int64, UInt64}
  }

  /** The switch of GetUnderlyingEnumType as written: it expects "Int8" and "UInt8". */
  function EnumCodeOfName(name: string): (r: PrimitiveTypeCode)
    ensures IsIntegral(r)
  {
    match name
    case "Int8" => SByte
    case "UInt8" => Byte
    case "Int16" => Int16
    case "UInt16" => UInt16
    case "Int32" => Int32
    case "UInt32" => UInt32
    case "Int64" => Int64
    case "UInt64" => UInt64
    case _ => Int32
  }

  /**
   * GetUnderlyingEnumType: Int32 for an enum whose underlying type is
   * unknown. Six of the eight integral runtime names map back to their
   * code; "SByte" and "Byte" fall to the Int32 default.
   */
  function GetUnderlyingEnumType(t: TypeInfo): (r: PrimitiveTypeCode)
    reads t, t.underlyingEnumType, if t.underlyingEnumType != null then t.underlyingEnumType.chain else {}
    requires t.underlyingEnumType != null ==> t.underlyingEnumType.ElementRanked()
    ensures t.underlyingEnumType == null ==> r == Int32
    ensures IsIntegral(r)
    ensures t.underlyingEnumType != null ==> forall c :: (c in {Int16, UInt16, Int32, UInt32, Int64, UInt64}
      && Some(t.underlyingEnumType.Name()) == RuntimeName(c)) ==> r == c
    ensures t.underlyingEnumType != null && t.underlyingEnumType.Name() in {"SByte", "Byte"} ==> r == Int32
  {
    if t.underlyingEnumType == null then Int32
    else EnumCodeOfName(t.underlyingEnumType.Name())
  }

  /**
   * The table expects "Int8" and "UInt8", but the primitives are named
   * "SByte" and "Byte", which fall to the default: an enum over sbyte or
   * byte is decoded as Int32.
   */
  lemma {:induction false} ByteEnumsDecodeAsInt32()
    ensures EnumCodeOfName(RuntimeName(SByte).value) == Int32 != SByte
    ensures EnumCodeOfName(RuntimeName(Byte).value) == Int32 != Byte
  {
  }

  /** The evidently intended table: keyed by the runtime type names. */
  function CorrectedEnumCodeOfName(name: string): (r: PrimitiveTypeCode)
    ensures IsIntegral(r)
  {
    match name
    case "SByte" => SByte
    case "Byte" => Byte
    case "Int16" => Int16
    case "UInt16" => UInt16
    case "Int32" => Int32
    case "UInt32" => UInt32
    case "Int64" => Int64
    case "UInt64" => UInt64
    case _ => Int32
  }

  /** With the corrected table every integral code survives the trip through its runtime name. */
  lemma {:induction false} CorrectedEnumCodeRoundTrip()
    ensures forall c :: IsIntegral(c) ==> CorrectedEnumCodeOfName(RuntimeName(c).value) == c
  {
  }

  /** GetUnderlyingEnumType over the corrected table: the code whose runtime name the underlying type carries. */
  function CorrectedUnderlyingEnumType(t: TypeInfo): (r: PrimitiveTypeCode)
    reads t, t.underlyingEnumType, if t.underlyingEnumType != null then t.underlyingEnumType.chain else {}
    requires t.underlyingEnumType != null ==> t.underlyingEnumType.ElementRanked()
    ensures t.underlyingEnumType == null ==> r == Int32
    ensures t.underlyingEnumType != null ==> forall c :: (IsIntegral(c)
      && Some(t.underlyingEnumType.Name()) == RuntimeName(c)) ==> r == c
  {
    CorrectedEnumCodeRoundTrip();
    if t.underlyingEnumType == null then Int32
    else CorrectedEnumCodeOfName(t.underlyingEnumType.Name())
  }

  /** GetTypeFromSerializedName always throws. */
  function GetTypeFromSerializedName(name: string): (r: Result<TypeInfo, Exception>)
    ensures r.Err? && r.error == NotImplemented
  {
    Err(NotImplemented)
  }

  /** FromKnownType: an external node carrying a runtime type's name, namespace and attributes. */
  method FromKnownType(name: string, ns: string, attributes: bv32) returns (t: TypeInfo)
    ensures fresh(t) && t.Ranked() && t.depth == 0 && t.chain == {}
    ensures t.Name() == name && t.Namespace() == Some(ns) && t.FullName() == ns + "." + name
    ensures t.attributes == attributes && t.isExternalReference
    ensures t.elementType == null && t.declaringType == null && t.genericArguments.None?
  {
    t := new TypeInfo();
    t.baseName := Some(name);
    t.ns := Some(ns);
    t.attributes := attributes;
    t.isExternalReference := true;
  }

  /**
   * GetPrimitiveType: an external System node named after the runtime type,
   * or null for a value outside the enumeration. The runtime type's
   * attributes come from the host and are passed in.
   */
  method GetPrimitiveType(code: PrimitiveTypeCode, hostAttributes: bv32) returns (t: TypeInfo?)
    ensures t == null <==> code.Undefined?
    ensures t != null ==> fresh(t) && t.Ranked() && t.isExternalReference
    ensures t != null ==> Some(t.Name()) == RuntimeName(code) && t.Namespace() == Some("System")
  {
    var name := RuntimeName(code);
    if name.None? {
      return null;
    }
    t := FromKnownType(name.value, "System", hostAttributes);
  }

  /** GetSystemType: the node for System.Type. */
  method GetSystemType(hostAttributes: bv32) returns (t: TypeInfo)
    ensures fresh(t) && t.Ranked() && t.FullName() == "System.Type" && t.isExternalReference
  {
    t := FromKnownType("Type", "System", hostAttributes);
  }

  /** The shape a wrapper node takes. */
  datatype WrapperKind = SZArray | Pointer | ByReference

  /**
   * GetSZArrayType, GetPointerType and GetByReferenceType: a fresh external
   * node around the element with exactly one of IsArray, IsPointer and
   * IsByRef set. Its name is the element's with the matching decoration and
   * its namespace is the element's.
   */
  method GetWrapperType(element: TypeInfo?, kind: WrapperKind) returns (t: TypeInfo)
    ensures fresh(t) && t.elementType == element && t.isExternalReference
    ensures t.isArray == (kind == SZArray) && t.isPointer == (kind == Pointer) && t.isByRef == (kind == ByReference)
    ensures element == null || element.ElementRanked() ==> t.ElementRanked()
    ensures element != null && element.ElementRanked() ==> t.Name() == element.Name() + Decoration(kind)
    ensures element != null && element.ElementRanked() ==> t.Namespace() == element.Namespace()
    ensures element != null && element.Ranked() ==> t.Ranked()
    ensures element == null ==> t.Ranked() && t.Name() == Decoration(kind) && t.Namespace().None?
    ensures t.declaringType == null && t.genericArguments.None? && !t.isGenericType
  {
    t := new TypeInfo();
    t.elementType := element;
    t.isArray := kind == SZArray;
    t.isPointer := kind == Pointer;
    t.isByRef := kind == ByReference;
    t.isExternalReference := true;
    if element != null {
      t.depth := element.depth + 1;
      t.chain := {element} + element.chain;
    }
  }

  function Decoration(kind: WrapperKind): string
  {
    match kind
    case SZArray => "[]"
    case Pointer => "*"
    case ByReference => "&"
  }

  /** Where a generic parameter is decoded: a method, a type, or nothing. */
  datatype GenericContext = NoContext | MethodContext(meth: MethodInfo) | TypeContext(typ: TypeInfo)

  /** The argument at the index, when the list has one there. */
  function ArgumentAt(args: Option<seq<TypeInfo>>, index: nat): (r: Option<TypeInfo>)
    ensures r.Some? <==> args.Some? && index < |args.value|
  {
    if args.Some? && index < |args.value| then Some(args.value[index]) else None
  }

  /** What reading the name of the argument at the index touches. */
  ghost function ArgumentFootprint(args: Option<seq<TypeInfo>>, index: nat): set<object>
    reads if ArgumentAt(args, index).Some? then {ArgumentAt(args, index).value} else {}
  {
    var a := ArgumentAt(args, index);
    if a.Some? then {a.value as object} + a.value.chain else {}
  }

  /** The argument at the index, if any, has a readable name. */
  ghost predicate ArgumentNamed(args: Option<seq<TypeInfo>>, index: nat)
    reads ArgumentFootprint(args, index)
  {
    var a := ArgumentAt(args, index);
    a.Some? ==> a.value.ElementRanked()
  }

  /** The name a generic parameter gets: the context's argument name if the index is in range, else "T" + index. */
  function ParameterName(args: Option<seq<TypeInfo>>, index: nat): (r: string)
    reads ArgumentFootprint(args, index)
    requires ArgumentNamed(args, index)
    ensures args.Some? && index < |args.value| ==> r == args.value[index].Name()
    ensures !(args.Some? && index < |args.value|) ==> r == "T" + NatToString(index)
  {
    if args.Some? && |args.value| > index then args.value[index].Name()
    else "T" + NatToString(index)
  }

  /** The generic arguments of the method in context (null for any other context). */
  function MethodArguments(ctx: GenericContext): Option<seq<TypeInfo>>
    reads ContextFootprint(ctx)
  {
    if ctx.MethodContext? then ctx.meth.genericArguments else None
  }

  /** The generic arguments of the type in context; a method context stands for its declaring type. */
  function TypeArguments(ctx: GenericContext): Option<seq<TypeInfo>>
    reads ContextFootprint(ctx)
  {
    match ctx
    case NoContext => None
    case TypeContext(t) => t.genericArguments
    case MethodContext(m) => if m.declaringType == null then None else m.declaringType.genericArguments
  }

  /** The objects the two argument lookups read: the method or type in context and the method's declaring type. */
  ghost function ContextFootprint(ctx: GenericContext): set<object>
    reads if ctx.MethodContext? then {ctx.meth} else {}
  {
    match ctx
    case NoContext => {}
    case TypeContext(t) => {t}
    case MethodContext(m) => {m as object} + (if m.declaringType != null then {m.declaringType as object} else {})
  }

  /** The fields every generic parameter node shares. */
  ghost predicate GenericParameterNode(t: TypeInfo, index: nat, name: string)
    reads t
  {
    t.isExternalReference && t.genericParameterIndex == index && t.baseName == Some(name)
    && t.elementType == null && t.declaringType == null && t.genericArguments.None?
    && t.genericParameterConstraints.None? && !t.isArray && !t.isPointer && !t.isByRef
  }

  /** GetGenericMethodParameter */
  method GetGenericMethodParameter(ctx: GenericContext, index: nat) returns (t: TypeInfo)
    requires ArgumentNamed(MethodArguments(ctx), index)
    ensures fresh(t) && t.Ranked() && t.isGenericMethodParameter && !t.isGenericTypeParameter
    ensures GenericParameterNode(t, index, ParameterName(MethodArguments(ctx), index))
    ensures t.IsGenericParameter() && t.Name() == ParameterName(MethodArguments(ctx), index)
  {
    var name := ParameterName(MethodArguments(ctx), index);
    t := new TypeInfo();
    t.isGenericMethodParameter := true;
    t.isExternalReference := true;
    t.genericParameterIndex := index;
    t.baseName := Some(name);
  }

  /** GetGenericTypeParameter */
  method GetGenericTypeParameter(ctx: GenericContext, index: nat) returns (t: TypeInfo)
    requires ArgumentNamed(TypeArguments(ctx), index)
    ensures fresh(t) && t.Ranked() && t.isGenericTypeParameter && !t.isGenericMethodParameter
    ensures GenericParameterNode(t, index, ParameterName(TypeArguments(ctx), index))
    ensures t.IsGenericParameter() && t.Name() == ParameterName(TypeArguments(ctx), index)
  {
    var name := ParameterName(TypeArguments(ctx), index);
    t := new TypeInfo();
    t.isGenericTypeParameter := true;
    t.isExternalReference := true;
    t.genericParameterIndex := index;
    t.baseName := Some(name);
  }

  /** GetPinnedType returns its argument. */
  function GetPinnedType(element: TypeInfo?): (r: TypeInfo?)
    ensures r == element
  {
    element
  }

  /** GetModifiedType returns the modifier, not the modified type. */
  function GetModifiedType(modifier: TypeInfo?, unmodified: TypeInfo?, isRequired: bool): (r: TypeInfo?)
    ensures r == modifier
  {
    modifier
  }

  /** GetArrayType drops the array shape and returns the element type. */
  function GetArrayType(element: TypeInfo?, rank: nat): (r: TypeInfo?)
    ensures r == element
  {
    element
  }

  /** GetFunctionPointerType: a blank node. */
  method GetFunctionPointerType() returns (t: TypeInfo)
    ensures fresh(t) && t.Blank() && t.Ranked()
  {
    t := new TypeInfo();
  }

  /** The largest depth in a list of nodes. */
  ghost function MaxDepth(ts: seq<TypeInfo>): (r: nat)
    reads set i | 0 <= i < |ts| :: ts[i]
    ensures forall i :: 0 <= i < |ts| ==> ts[i].depth <= r
  {
    if ts == [] then 0
    else var m := MaxDepth(ts[1..]); if ts[0].depth > m then ts[0].depth else m
  }

  /** The fields GetGenericInstantiation copies from the open type onto a new node. */
  ghost predicate CopiesOpenType(t: TypeInfo, g: TypeInfo, name: string, ns: Option<string>, args: seq<TypeInfo>)
    reads t, g
  {
    t.isGenericType && t.genericArguments == Some(args)
    && t.baseName == Some(name) && t.ns == ns
    && t.attributes == g.attributes && t.baseType == g.baseType
    && t.declaringType == g.declaringType && t.elementType == g.elementType
    && t.isExternalReference == g.isExternalReference
    && t.isByRef == g.isByRef && t.isArray == g.isArray && !t.isPointer
    && t.interfaceImplementations == g.interfaceImplementations
    && t.constructors == g.constructors && t.events == g.events
    && t.fields == g.fields && t.properties == g.properties
    && t.nestedTypes == g.nestedTypes && t.methods == g.methods
    && t.genericParameterConstraints.None?
  }

  /**
   * GetGenericInstantiation: a fresh generic node copying the open type's
   * name, namespace, attributes, links and flags, carrying the supplied
   * arguments, and sharing the open type's member, interface and nested
   * lists element by element. A plain open type keeps its name and full name.
   */
  method GetGenericInstantiation(genericType: TypeInfo, typeArguments: seq<TypeInfo>) returns (t: TypeInfo)
    requires genericType.ElementRanked()
    ensures fresh(t) && t.ElementRanked()
    ensures CopiesOpenType(t, genericType, genericType.Name(), genericType.Namespace(), typeArguments)
    ensures genericType.Ranked() && (forall i :: 0 <= i < |typeArguments| ==> typeArguments[i].Ranked()) ==> t.Ranked()
    ensures genericType.elementType == null && !genericType.isPointer && !genericType.isByRef && !genericType.isArray
      ==> t.Name() == genericType.Name()
    ensures genericType.Ranked() && genericType.elementType == null && !genericType.isPointer && !genericType.isByRef
      && !genericType.isArray && (forall i :: 0 <= i < |typeArguments| ==> typeArguments[i].Ranked())
      ==> t.FullName() == genericType.FullName()
  {
    var name := genericType.Name();
    var ns := genericType.Namespace();
    ghost var m := MaxDepth(typeArguments);
    t := new TypeInfo.Instantiation(genericType, name, ns, typeArguments, (if genericType.depth > m then genericType.depth else m) + 1);
  }
}
