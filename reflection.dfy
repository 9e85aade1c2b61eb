/**
 * The reflection nodes the metadata extractor builds: mutable, possibly
 * cyclic objects. Names, namespaces and full names are getters recomputed
 * on every read by following the element and declaring-type links, and type
 * equality is structural over those links.
 */
module Reflection {
  import opened Wrappers
  import opened Strings
  import opened Accessibility
  import TypeFlags
  import MethodFlags
  import FieldFlags
  import XmlInfo
  import CodeReferences

  /**
   * A decoded constant (DocsPEParser.GetConstant). NullValue is C#'s null;
   * Undecoded stands for the floating-point and string constants, whose
   * decoding is not part of this model.
   */
  datatype ConstantValue =
    | IntValue(i: int)
    | BoolValue(b: bool)
    | CharValue(c: int)
    | NullValue
    | Undecoded(typeCode: int)

  /** A custom-attribute argument: its value, and its name for a named argument. */
  datatype AttributeArgument = AttributeArgument(name: Option<string>, value: ConstantValue)

  /** DocsCustomAttributeData */
  datatype CustomAttributeData = CustomAttributeData(
    attributeType: TypeInfo?,
    fixedArguments: seq<AttributeArgument>,
    namedArguments: seq<AttributeArgument>)

  /** DocsAssemblyInfo: compared by reference wherever it is compared. */
  class AssemblyInfo {
    var name: string
    var moduleInfo: ModuleInfo?
    var customAttributes: Option<seq<CustomAttributeData>>

    constructor (name: string)
      ensures this.name == name && moduleInfo == null && customAttributes.None?
    {
      this.name := name;
      moduleInfo := null;
      customAttributes := None;
    }
  }

  /** DocsModuleInfo */
  class ModuleInfo {
    var name: string
    var assembly: AssemblyInfo?
    var customAttributes: Option<seq<CustomAttributeData>>

    constructor (name: string)
      ensures this.name == name && assembly == null && customAttributes.None?
    {
      this.name := name;
      assembly := null;
      customAttributes := None;
    }
  }

  /** DocsNamespaceInfo: Types stays null until the namespace is parsed. */
  class NamespaceInfo {
    var name: Option<string>
    var parent: NamespaceInfo?
    var types: Option<seq<TypeInfo?>>
    var exportedTypes: Option<seq<TypeInfo?>>
    var namespaces: Option<seq<NamespaceInfo?>>
    var documentation: XmlInfo.XmlDocNamespaceInfo?

    constructor ()
      ensures name.None? && parent == null && types.None? && exportedTypes.None? && namespaces.None?
      ensures documentation == null
    {
      name := None;
      parent := null;
      types := None;
      exportedTypes := None;
      namespaces := None;
      documentation := null;
    }
  }

  /** DocsParameterInfo */
  class ParameterInfo {
    var attributes: bv32
    var name: Option<string>
    var parameterType: TypeInfo?
    var hasDefaultValue: bool
    var defaultValue: ConstantValue
    var customAttributes: Option<seq<CustomAttributeData>>

    /** A parameter starts with no default value. */
    constructor (name: Option<string>, attributes: bv32, parameterType: TypeInfo?)
      ensures this.name == name && this.attributes == attributes && this.parameterType == parameterType
      ensures !hasDefaultValue && defaultValue == NullValue && customAttributes.None?
    {
      this.name := name;
      this.attributes := attributes;
      this.parameterType := parameterType;
      hasDefaultValue := false;
      defaultValue := NullValue;
      customAttributes := None;
    }
  }

  /**
   * DocsMethodInfo and DocsConstructorInfo (DocsMethodBase), told apart by
   * isConstructorNode.
   */
  class MethodInfo {
    const isConstructorNode: bool
    var name: Option<string>
    var declaringType: TypeInfo?
    var attributes: bv32
    var genericArguments: Option<seq<TypeInfo>>
    var parameters: seq<ParameterInfo>
    var returnType: TypeInfo?
    var documentation: XmlInfo.XmlDocMemberInfo?
    var customAttributes: Option<seq<CustomAttributeData>>

    constructor (isConstructorNode: bool, name: Option<string>, declaringType: TypeInfo?, attributes: bv32)
      ensures this.isConstructorNode == isConstructorNode && this.name == name
      ensures this.declaringType == declaringType && this.attributes == attributes
      ensures genericArguments.None? && parameters == [] && returnType == null && documentation == null
      ensures customAttributes.None?
    {
      customAttributes := None;
      this.isConstructorNode := isConstructorNode;
      this.name := name;
      this.declaringType := declaringType;
      this.attributes := attributes;
      genericArguments := None;
      parameters := [];
      returnType := null;
      documentation := null;
    }

    function Level(): (r: Level)
      reads this
      ensures r == Unknown <==> MethodFlags.Access(attributes) == 0 || MethodFlags.Access(attributes) == 7
    {
      MethodFlags.Level(attributes)
    }

    predicate IsSpecialName()
      reads this
    {
      MethodFlags.IsSpecialName(attributes)
    }

    /** MethodBase.IsConstructor: a static constructor node never counts. */
    predicate IsConstructor()
      reads this
      ensures IsConstructor() ==> isConstructorNode && !MethodFlags.IsStatic(attributes)
    {
      MethodFlags.IsConstructor(attributes, isConstructorNode)
    }
  }

  /** DocsPropertyInfo */
  class PropertyInfo {
    var name: Option<string>
    const declaringType: TypeInfo?
    var propertyType: TypeInfo?
    var indexParameters: Option<seq<ParameterInfo>>
    var getMethod: MethodInfo?
    var setMethod: MethodInfo?
    var documentation: XmlInfo.XmlDocMemberInfo?
    var customAttributes: Option<seq<CustomAttributeData>>

    constructor (name: Option<string>, declaringType: TypeInfo?, propertyType: TypeInfo?, indexParameters: Option<seq<ParameterInfo>>)
      ensures this.name == name && this.declaringType == declaringType
      ensures this.propertyType == propertyType && this.indexParameters == indexParameters
      ensures getMethod == null && setMethod == null && documentation == null && customAttributes.None?
    {
      customAttributes := None;
      this.name := name;
      this.declaringType := declaringType;
      this.propertyType := propertyType;
      this.indexParameters := indexParameters;
      getMethod := null;
      setMethod := null;
      documentation := null;
    }
  }

  /** DocsEventInfo: the accessors stay null until the accessor merge assigns them. */
  class EventInfo {
    var name: Option<string>
    const declaringType: TypeInfo?
    var eventHandlerType: TypeInfo?
    var addMethod: MethodInfo?
    var removeMethod: MethodInfo?
    var documentation: XmlInfo.XmlDocMemberInfo?
    var customAttributes: Option<seq<CustomAttributeData>>

    constructor (name: Option<string>, declaringType: TypeInfo?, eventHandlerType: TypeInfo?)
      ensures this.name == name && this.declaringType == declaringType && this.eventHandlerType == eventHandlerType
      ensures addMethod == null && removeMethod == null && documentation == null && customAttributes.None?
    {
      customAttributes := None;
      this.name := name;
      this.declaringType := declaringType;
      this.eventHandlerType := eventHandlerType;
      addMethod := null;
      removeMethod := null;
      documentation := null;
    }

    /** DocsEventInfo.AccessibilityLevel: the add accessor's level, else the remove accessor's, else Unknown. */
    function Level(): (r: Level)
      reads this, addMethod, removeMethod
      ensures addMethod != null ==> r == MethodFlags.Level(addMethod.attributes)
      ensures addMethod == null && removeMethod != null ==> r == MethodFlags.Level(removeMethod.attributes)
      ensures addMethod == null && removeMethod == null ==> r == Unknown
    {
      if addMethod != null then addMethod.Level()
      else if removeMethod != null then removeMethod.Level()
      else Unknown
    }
  }

  /** DocsFieldInfo */
  class FieldInfo {
    var name: Option<string>
    var declaringType: TypeInfo?
    var fieldType: TypeInfo?
    var attributes: bv32
    var enumValue: ConstantValue
    var documentation: XmlInfo.XmlDocMemberInfo?
    var customAttributes: Option<seq<CustomAttributeData>>

    /** A field is not an enum value until the extractor says so. */
    constructor (name: Option<string>, declaringType: TypeInfo?, fieldType: TypeInfo?, attributes: bv32)
      ensures this.name == name && this.declaringType == declaringType
      ensures this.fieldType == fieldType && this.attributes == attributes
      ensures enumValue == NullValue && documentation == null && customAttributes.None?
    {
      customAttributes := None;
      this.name := name;
      this.declaringType := declaringType;
      this.fieldType := fieldType;
      this.attributes := attributes;
      enumValue := NullValue;
      documentation := null;
    }

    function Level(): (r: Level)
      reads this
      ensures r == Unknown <==> FieldFlags.Access(attributes) == 0 || FieldFlags.Access(attributes) == 7
    {
      FieldFlags.Level(attributes)
    }
  }

  /**
   * DocsTypeInfo. The ghost depth ranks the node above everything its
   * recursive getters and Equals follow: the element type, the declaring
   * type, the generic arguments and the generic parameter constraints. The
   * source recurses along the same links and never terminates on a cycle.
   * The ghost chain holds the nodes of the element-type chain, which is all
   * Name and Namespace read.
   */
  class TypeInfo {
    var baseName: Option<string>
    var ns: Option<string>
    var attributes: bv32
    var isArray: bool
    var isByRef: bool
    var isPointer: bool
    var isGenericTypeParameter: bool
    var isGenericMethodParameter: bool
    var isGenericType: bool
    var isGenericTypeDefinition: bool
    var genericParameterIndex: int
    var elementType: TypeInfo?
    var underlyingEnumType: TypeInfo?
    var genericArguments: Option<seq<TypeInfo>>
    var genericParameterConstraints: Option<seq<TypeInfo>>
    var baseType: TypeInfo?
    var declaringType: TypeInfo?
    var isValueType: bool
    var genericParameterAttributes: bv32
    var assembly: AssemblyInfo?
    var moduleInfo: ModuleInfo?
    var isExternalReference: bool
    var nestedTypes: seq<TypeInfo?>
    var interfaceImplementations: seq<TypeInfo?>
    var properties: seq<PropertyInfo>
    var methods: seq<MethodInfo>
    var constructors: seq<MethodInfo>
    var events: seq<EventInfo>
    var fields: seq<FieldInfo>
    var documentation: XmlInfo.XmlDocTypeInfo?
    var customAttributes: Option<seq<CustomAttributeData>>
    ghost var depth: nat
    ghost var chain: set<TypeInfo>

    /** new DocsTypeInfo(): every field at its default, every list empty. */
    constructor ()
      ensures Blank() && depth == 0 && chain == {}
    {
      baseName := None;
      ns := None;
      attributes := 0;
      isArray := false;
      isByRef := false;
      isPointer := false;
      isGenericTypeParameter := false;
      isGenericMethodParameter := false;
      isGenericType := false;
      isGenericTypeDefinition := false;
      genericParameterIndex := 0;
      elementType := null;
      underlyingEnumType := null;
      genericArguments := None;
      genericParameterConstraints := None;
      baseType := null;
      declaringType := null;
      isValueType := false;
      genericParameterAttributes := 0;
      assembly := null;
      moduleInfo := null;
      isExternalReference := false;
      nestedTypes := [];
      interfaceImplementations := [];
      properties := [];
      methods := [];
      constructors := [];
      events := [];
      fields := [];
      documentation := null;
      customAttributes := None;
      depth := 0;
      chain := {};
    }

    /**
     * The node GetGenericInstantiation builds: the open type's fields and
     * lists with the supplied name, namespace and arguments.
     */
    constructor Instantiation(g: TypeInfo, name: string, namespace: Option<string>, args: seq<TypeInfo>, ghost d: nat)
      ensures isGenericType && genericArguments == Some(args) && baseName == Some(name) && ns == namespace
      ensures attributes == g.attributes && baseType == g.baseType
      ensures declaringType == g.declaringType && elementType == g.elementType
      ensures isExternalReference == g.isExternalReference && isByRef == g.isByRef && isArray == g.isArray
      ensures !isPointer && genericParameterConstraints.None?
      ensures interfaceImplementations == g.interfaceImplementations && constructors == g.constructors
      ensures events == g.events && fields == g.fields && properties == g.properties
      ensures nestedTypes == g.nestedTypes && methods == g.methods
      ensures depth == d && chain == g.chain
    {
      baseName := Some(name);
      ns := namespace;
      attributes := g.attributes;
      isArray := g.isArray;
      isByRef := g.isByRef;
      isPointer := false;
      isGenericTypeParameter := false;
      isGenericMethodParameter := false;
      isGenericType := true;
      isGenericTypeDefinition := false;
      genericParameterIndex := 0;
      elementType := g.elementType;
      underlyingEnumType := null;
      genericArguments := Some(args);
      genericParameterConstraints := None;
      baseType := g.baseType;
      declaringType := g.declaringType;
      isValueType := false;
      genericParameterAttributes := 0;
      assembly := null;
      moduleInfo := null;
      isExternalReference := g.isExternalReference;
      nestedTypes := g.nestedTypes;
      interfaceImplementations := g.interfaceImplementations;
      properties := g.properties;
      methods := g.methods;
      constructors := g.constructors;
      events := g.events;
      fields := g.fields;
      documentation := null;
      customAttributes := None;
      depth := d;
      chain := g.chain;
    }

    /** The state of a freshly allocated node. */
    ghost predicate Blank()
      reads this
    {
      baseName.None? && ns.None? && attributes == 0 && !isArray && !isByRef && !isPointer
      && !isGenericTypeParameter && !isGenericMethodParameter && !isGenericType && !isGenericTypeDefinition
      && genericParameterIndex == 0 && elementType == null && underlyingEnumType == null
      && genericArguments.None? && genericParameterConstraints.None? && baseType == null && declaringType == null
      && !isValueType && genericParameterAttributes == 0 && assembly == null && moduleInfo == null
      && !isExternalReference && nestedTypes == [] && interfaceImplementations == [] && properties == []
      && methods == [] && constructors == [] && events == [] && fields == [] && documentation == null
      && customAttributes.None?
    }

    /** Every property and every event of the type names it as its declaring type. */
    predicate OwnsMembers()
      reads this`properties, this`events
    {
      (forall p :: p in properties ==> p.declaringType == this)
      && (forall e :: e in events ==> e.declaringType == this)
    }

    /** The element-type chain descends in depth and stays inside the ghost chain. */
    ghost predicate ElementRanked()
      reads this, chain
      decreases depth
    {
      elementType != null ==>
        (elementType in chain && elementType.chain <= chain && elementType.depth < depth
         && elementType.ElementRanked())
    }

    /** Every link the getters and Equals follow leads to a node of smaller depth. */
    ghost predicate Ranked()
      reads *
      decreases depth
    {
      ElementRanked()
      && (elementType != null ==> elementType.depth < depth && elementType.Ranked())
      && (declaringType != null ==> declaringType.depth < depth && declaringType.Ranked())
      && (genericArguments.Some? ==> RankedBelow(genericArguments.value, depth))
      && (genericParameterConstraints.Some? ==> RankedBelow(genericParameterConstraints.value, depth))
    }

    /** DocsTypeInfo.Name: the element's name (or the own name) decorated with *, & and []. */
    function Name(): string
      reads this, chain
      requires ElementRanked()
      decreases depth
    {
      (if elementType != null then elementType.Name() else CodeReferences.Str(baseName)) + Decorations()
    }

    /** The "*", "&" and "[]" a wrapper adds to its element's name. */
    function Decorations(): string
      reads this
    {
      (if isPointer then "*" else "") + (if isByRef then "&" else "") + (if isArray then "[]" else "")
    }

    /** DocsTypeInfo.Namespace: the element's namespace when there is an element type. */
    function Namespace(): Option<string>
      reads this, chain
      requires ElementRanked()
      decreases depth
    {
      if elementType != null then elementType.Namespace() else ns
    }

    /** DocsTypeInfo.FullName: the declaring type's full name, or the namespace, then "." and the name. */
    function FullName(): string
      reads *
      requires Ranked()
      decreases depth
    {
      (if declaringType == null then CodeReferences.Str(Namespace()) else declaringType.FullName()) + "." + Name()
    }

    predicate IsGenericParameter()
      reads this
    {
      isGenericTypeParameter || isGenericMethodParameter
    }

    /** IsEnum: the base type is the external reference System.Enum. */
    predicate IsEnum()
      reads this, baseType, if baseType != null then baseType.chain else {}
      requires baseType != null ==> baseType.ElementRanked()
    {
      baseType != null && baseType.isExternalReference && baseType.Name() == "Enum" && baseType.Namespace() == Some("System")
    }

    /** IsDelegate: the base type is the external reference System.MulticastDelegate. */
    predicate IsDelegate()
      reads this, baseType, if baseType != null then baseType.chain else {}
      requires baseType != null ==> baseType.ElementRanked()
    {
      baseType != null && baseType.isExternalReference && baseType.Name() == "MulticastDelegate"
      && baseType.Namespace() == Some("System")
    }

    /** DocsTypeInfo.Kind: Interface or Class, never Delegate, Enum or Struct. */
    function Kind(): (r: TypeFlags.TypeKind)
      reads this, baseType, if baseType != null then baseType.chain else {}
      requires baseType != null ==> baseType.ElementRanked()
      ensures r == TypeFlags.Interface || r == TypeFlags.Class
      ensures r == TypeFlags.Interface <==> attributes & TypeFlags.InterfaceFlag != 0
    {
      TypeFlags.KindIsClassOrInterface(attributes, IsDelegate(), IsEnum());
      TypeFlags.Kind(attributes, IsDelegate(), IsEnum())
    }

    function Level(): (r: Level)
      reads this
      ensures r != Unknown
    {
      TypeFlags.Level(attributes)
    }

    /** DocsTypeInfo.Equals: structural over names, flags and links; module and assembly by reference. */
    predicate Equals(other: TypeInfo?)
      reads *
      requires Ranked() && (other != null ==> other.Ranked())
      decreases depth, 1
    {
      other != null
      && Namespace() == other.Namespace()
      && Name() == other.Name()
      && SameFlags(this, other)
      && CompareTypes(genericArguments, other.genericArguments, depth, other.depth)
      && CompareTypes(genericParameterConstraints, other.genericParameterConstraints, depth, other.depth)
      && ((declaringType == null && other.declaringType == null)
          || (declaringType != null && declaringType.Equals(other.declaringType)))
      && SameIdentity(this, other)
      && (elementType == null || elementType.Equals(other.elementType))
      && isArray == other.isArray
      && isByRef == other.isByRef
    }
  }

  /** Every node of the list is ranked and has depth below the bound. */
  ghost predicate RankedBelow(ts: seq<TypeInfo>, bound: nat)
    reads *
    decreases bound, 0
  {
    forall i :: 0 <= i < |ts| ==> ts[i].depth < bound && ts[i].Ranked()
  }

  /**
   * DocsTypeInfo.CompareTypes: both null is equal, one null is not, and
   * otherwise only the common prefix is compared (Enumerable.Zip).
   */
  predicate CompareTypes(lhs: Option<seq<TypeInfo>>, rhs: Option<seq<TypeInfo>>, ghost bound: nat, ghost rbound: nat)
    reads *
    requires lhs.Some? ==> RankedBelow(lhs.value, bound)
    requires rhs.Some? ==> RankedBelow(rhs.value, rbound)
    decreases bound, 0
  {
    if lhs.None? && rhs.None? then true
    else if lhs.None? || rhs.None? then false
    else forall i :: 0 <= i < |lhs.value| && i < |rhs.value| ==> lhs.value[i].Equals(rhs.value[i])
  }

  /** Every ranked node equals itself. */
  lemma {:induction false} EqualsReflexive(t: TypeInfo)
    requires t.Ranked()
    ensures t.Equals(t)
    decreases t.depth
  {
    if t.declaringType != null {
      EqualsReflexive(t.declaringType);
    }
    if t.elementType != null {
      EqualsReflexive(t.elementType);
    }
    if t.genericArguments.Some? {
      var args := t.genericArguments.value;
      forall i | 0 <= i < |args|
        ensures args[i].Equals(args[i])
      {
        EqualsReflexive(args[i]);
      }
    }
    if t.genericParameterConstraints.Some? {
      var cs := t.genericParameterConstraints.value;
      forall i | 0 <= i < |cs|
        ensures cs[i].Equals(cs[i])
      {
        EqualsReflexive(cs[i]);
      }
    }
  }

  /** Equals is symmetric. */
  lemma {:induction false} EqualsSymmetric(a: TypeInfo, b: TypeInfo)
    requires a.Ranked() && b.Ranked() && a.Equals(b)
    ensures b.Equals(a)
    decreases a.depth
  {
    if a.declaringType != null {
      EqualsSymmetric(a.declaringType, b.declaringType);
    }
    if a.elementType != null {
      EqualsSymmetric(a.elementType, b.elementType);
    }
    if a.genericArguments.Some? {
      ListsSymmetric(a.genericArguments.value, b.genericArguments.value, a.depth, b.depth);
    }
    if a.genericParameterConstraints.Some? {
      ListsSymmetric(a.genericParameterConstraints.value, b.genericParameterConstraints.value, a.depth, b.depth);
    }
  }

  lemma {:induction false} ListsSymmetric(l: seq<TypeInfo>, r: seq<TypeInfo>, lb: nat, rb: nat)
    requires RankedBelow(l, lb) && RankedBelow(r, rb)
    requires CompareTypes(Some(l), Some(r), lb, rb)
    ensures CompareTypes(Some(r), Some(l), rb, lb)
    decreases lb, 0
  {
    forall i | 0 <= i < |r| && i < |l|
      ensures r[i].Equals(l[i])
    {
      EqualsSymmetric(l[i], r[i]);
    }
  }

  /**
   * Argument lists are compared on their common prefix only: a one-element
   * list matches any longer list that starts with an equal node.
   */
  lemma {:induction false} CompareTypesIgnoresExtraArguments(x: TypeInfo, y: TypeInfo, bound: nat)
    requires x.Ranked() && y.Ranked() && x.depth < bound && y.depth < bound
    ensures CompareTypes(Some([x]), Some([x, y]), bound, bound)
    ensures CompareTypes(Some([x, y]), Some([x]), bound, bound)
  {
    EqualsReflexive(x);
  }

  /*
   * The getters above terminate only on a graph ranked by depth, which the
   * extractor cannot maintain while it fills nodes in place. The host runs
   * them with a finite stack: the versions below spend one unit of fuel per
   * getter frame and report StackOverflow when it runs out, and agree with
   * the ranked definitions when the graph is ranked and the fuel suffices.
   */

  /** DocsTypeInfo.Name within a recursion budget. */
  function NameWithin(t: TypeInfo, fuel: nat): (r: Result<string, Exception>)
    reads *
    ensures r.Err? ==> r.error == StackOverflow
    decreases fuel
  {
    if fuel == 0 then Err(StackOverflow)
    else
      var inner := if t.elementType != null then NameWithin(t.elementType, fuel - 1) else Ok(CodeReferences.Str(t.baseName));
      if inner.Err? then inner else Ok(inner.value + t.Decorations())
  }

  /** DocsTypeInfo.Namespace within a recursion budget. */
  function NamespaceWithin(t: TypeInfo, fuel: nat): (r: Result<Option<string>, Exception>)
    reads *
    ensures r.Err? ==> r.error == StackOverflow
    decreases fuel
  {
    if fuel == 0 then Err(StackOverflow)
    else if t.elementType != null then NamespaceWithin(t.elementType, fuel - 1)
    else Ok(t.ns)
  }

  /** DocsTypeInfo.FullName within a recursion budget: the prefix is evaluated before the name. */
  function FullNameWithin(t: TypeInfo, fuel: nat): (r: Result<string, Exception>)
    reads *
    ensures r.Err? ==> r.error == StackOverflow
    decreases fuel
  {
    if fuel == 0 then Err(StackOverflow)
    else
      var prefix :=
        if t.declaringType == null then
          (var n := NamespaceWithin(t, fuel - 1); if n.Err? then Err(n.error) else Ok(CodeReferences.Str(n.value)))
        else FullNameWithin(t.declaringType, fuel - 1);
      if prefix.Err? then prefix
      else
        var name := NameWithin(t, fuel - 1);
        if name.Err? then name else Ok(prefix.value + "." + name.value)
  }

  /** DocsTypeInfo.IsEnum within a recursion budget: the conjuncts short-circuit left to right. */
  function IsEnumWithin(t: TypeInfo, fuel: nat): (r: Result<bool, Exception>)
    reads *
    ensures r.Err? ==> r.error == StackOverflow
  {
    if fuel == 0 then Err(StackOverflow)
    else if t.baseType == null || !t.baseType.isExternalReference then Ok(false)
    else
      var name := NameWithin(t.baseType, fuel - 1);
      if name.Err? then Err(name.error)
      else if name.value != "Enum" then Ok(false)
      else
        var ns := NamespaceWithin(t.baseType, fuel - 1);
        if ns.Err? then Err(ns.error) else Ok(ns.value == Some("System"))
  }

  /** The flag comparisons of Equals between the names and the argument lists. */
  predicate SameFlags(a: TypeInfo, b: TypeInfo)
    reads a, b
  {
    a.attributes == b.attributes
    && a.isGenericType == b.isGenericType
    && a.isGenericTypeParameter == b.isGenericTypeParameter
    && a.isGenericMethodParameter == b.isGenericMethodParameter
    && a.isGenericTypeDefinition == b.isGenericTypeDefinition
    && a.IsGenericParameter() == b.IsGenericParameter()
    && a.genericParameterAttributes == b.genericParameterAttributes
    && a.genericParameterIndex == b.genericParameterIndex
  }

  /** The comparisons of Equals between the declaring type and the element type. */
  predicate SameIdentity(a: TypeInfo, b: TypeInfo)
    reads a, b
  {
    a.Level() == b.Level()
    && a.isExternalReference == b.isExternalReference
    && a.isValueType == b.isValueType
    && a.moduleInfo == b.moduleInfo
    && a.assembly == b.assembly
    && (a.elementType != null) == (b.elementType != null)
  }

  /** Namespaces, then names: each pair evaluated this side first. */
  function SameNamesWithin(a: TypeInfo, b: TypeInfo, fuel: nat): (r: Result<bool, Exception>)
    reads *
  {
    var an := NamespaceWithin(a, fuel);
    if an.Err? then Err(an.error)
    else
      var bn := NamespaceWithin(b, fuel);
      if bn.Err? then Err(bn.error)
      else if an.value != bn.value then Ok(false)
      else
        var aN := NameWithin(a, fuel);
        if aN.Err? then Err(aN.error)
        else
          var bN := NameWithin(b, fuel);
          if bN.Err? then Err(bN.error) else Ok(aN.value == bN.value)
  }

  /** A Result<bool> that stops the conjunction: an error or false. */
  predicate Stops(r: Result<bool, Exception>)
  {
    r.Err? || !r.value
  }

  /** DocsTypeInfo.Equals within a recursion budget, short-circuiting in the source's order. */
  function EqualsWithin(a: TypeInfo, b: TypeInfo?, fuel: nat): (r: Result<bool, Exception>)
    reads *
    decreases fuel, 0, 0
  {
    if fuel == 0 then Err(StackOverflow)
    else if b == null then Ok(false)
    else
      var names := SameNamesWithin(a, b, fuel - 1);
      if Stops(names) then names
      else if !SameFlags(a, b) then Ok(false)
      else
        var args := CompareTypesWithin(a.genericArguments, b.genericArguments, fuel - 1);
        if Stops(args) then args
        else
          var constraints := CompareTypesWithin(a.genericParameterConstraints, b.genericParameterConstraints, fuel - 1);
          if Stops(constraints) then constraints
          else
            var declaring :=
              if a.declaringType == null then Ok(b.declaringType == null)
              else EqualsWithin(a.declaringType, b.declaringType, fuel - 1);
            if Stops(declaring) then declaring
            else if !SameIdentity(a, b) then Ok(false)
            else
              var element := if a.elementType == null then Ok(true) else EqualsWithin(a.elementType, b.elementType, fuel - 1);
              if Stops(element) then element
              else Ok(a.isArray == b.isArray && a.isByRef == b.isByRef)
  }

  /** DocsTypeInfo.CompareTypes within a recursion budget. */
  function CompareTypesWithin(lhs: Option<seq<TypeInfo>>, rhs: Option<seq<TypeInfo>>, fuel: nat): (r: Result<bool, Exception>)
    reads *
    decreases fuel, 2, 0
  {
    if lhs.None? && rhs.None? then Ok(true)
    else if lhs.None? || rhs.None? then Ok(false)
    else ZipEqualsWithin(lhs.value, rhs.value, fuel)
  }

  /** Enumerable.Zip then All: pairs compared in order until one is unequal. */
  function ZipEqualsWithin(l: seq<TypeInfo>, r: seq<TypeInfo>, fuel: nat): (res: Result<bool, Exception>)
    reads *
    decreases fuel, 1, |l|
  {
    if l == [] || r == [] then Ok(true)
    else
      var first := EqualsWithin(l[0], r[0], fuel);
      if Stops(first) then first else ZipEqualsWithin(l[1..], r[1..], fuel)
  }

  /** With fuel above the depth, the bounded name is the name. */
  lemma {:induction false} NameWithinAgrees(t: TypeInfo, fuel: nat)
    requires t.ElementRanked() && fuel > t.depth
    ensures NameWithin(t, fuel) == Ok(t.Name())
    ensures NamespaceWithin(t, fuel) == Ok(t.Namespace())
    decreases t.depth
  {
    if t.elementType != null {
      NameWithinAgrees(t.elementType, fuel - 1);
    }
  }

  /** With fuel above the depth plus one, the bounded full name is the full name. */
  lemma {:induction false} FullNameWithinAgrees(t: TypeInfo, fuel: nat)
    requires t.Ranked() && fuel > t.depth + 1
    ensures FullNameWithin(t, fuel) == Ok(t.FullName())
    decreases t.depth
  {
    NameWithinAgrees(t, fuel - 1);
    if t.declaringType != null {
      FullNameWithinAgrees(t.declaringType, fuel - 1);
    }
  }

  /** With fuel above the base type's depth plus one, the bounded IsEnum is IsEnum. */
  lemma {:induction false} IsEnumWithinAgrees(t: TypeInfo, fuel: nat)
    requires t.baseType != null ==> t.baseType.ElementRanked() && fuel > t.baseType.depth + 1
    requires fuel > 0
    ensures IsEnumWithin(t, fuel) == Ok(t.IsEnum())
  {
    if t.baseType != null {
      NameWithinAgrees(t.baseType, fuel - 1);
    }
  }

  /** The namespace and name comparisons agree on element-ranked nodes. */
  lemma {:induction false} SameNamesAgrees(a: TypeInfo, b: TypeInfo, fuel: nat)
    requires a.ElementRanked() && b.ElementRanked() && fuel > a.depth && fuel > b.depth
    ensures SameNamesWithin(a, b, fuel) == Ok(a.Namespace() == b.Namespace() && a.Name() == b.Name())
  {
    NameWithinAgrees(a, fuel);
    NameWithinAgrees(b, fuel);
  }

  /**
   * On a ranked graph, with fuel above both depths plus one, the bounded
   * comparison is Equals.
   */
  lemma {:induction false} EqualsWithinAgrees(a: TypeInfo, b: TypeInfo?, fuel: nat)
    requires a.Ranked() && (b != null ==> b.Ranked())
    requires fuel > a.depth + 1 && (b != null ==> fuel > b.depth + 1)
    ensures EqualsWithin(a, b, fuel) == Ok(a.Equals(b))
    decreases a.depth, 2
  {
    if b != null {
      SameNamesAgrees(a, b, fuel - 1);
      if !Stops(SameNamesWithin(a, b, fuel - 1)) && SameFlags(a, b) {
        EqualsWithinAgreesPastNames(a, b, fuel);
      }
    }
  }

  /** The comparisons after the names and flags: generic arguments, constraints, declaring and element types. */
  lemma {:induction false} EqualsWithinAgreesPastNames(a: TypeInfo, b: TypeInfo, fuel: nat)
    requires a.Ranked() && b.Ranked()
    requires fuel > a.depth + 1 && fuel > b.depth + 1
    requires SameNamesWithin(a, b, fuel - 1) == Ok(true) && SameFlags(a, b)
    requires a.Namespace() == b.Namespace() && a.Name() == b.Name()
    ensures EqualsWithin(a, b, fuel) == Ok(a.Equals(b))
    decreases a.depth, 1
  {
    CompareTypesWithinAgrees(a.genericArguments, b.genericArguments, a.depth, b.depth, fuel - 1);
    if !Stops(CompareTypesWithin(a.genericArguments, b.genericArguments, fuel - 1)) {
      CompareTypesWithinAgrees(a.genericParameterConstraints, b.genericParameterConstraints, a.depth, b.depth, fuel - 1);
      if !Stops(CompareTypesWithin(a.genericParameterConstraints, b.genericParameterConstraints, fuel - 1)) {
        if a.declaringType != null {
          EqualsWithinAgrees(a.declaringType, b.declaringType, fuel - 1);
        }
        if a.elementType != null {
          EqualsWithinAgrees(a.elementType, b.elementType, fuel - 1);
        }
      }
    }
  }

  lemma {:induction false} CompareTypesWithinAgrees(lhs: Option<seq<TypeInfo>>, rhs: Option<seq<TypeInfo>>, lb: nat, rb: nat, fuel: nat)
    requires lhs.Some? ==> RankedBelow(lhs.value, lb)
    requires rhs.Some? ==> RankedBelow(rhs.value, rb)
    requires fuel > lb && fuel > rb
    ensures CompareTypesWithin(lhs, rhs, fuel) == Ok(CompareTypes(lhs, rhs, lb, rb))
    decreases lb, 1, 0
  {
    if lhs.Some? && rhs.Some? {
      ZipEqualsWithinAgrees(lhs.value, rhs.value, lb, rb, fuel);
    }
  }

  lemma {:induction false} ZipEqualsWithinAgrees(l: seq<TypeInfo>, r: seq<TypeInfo>, lb: nat, rb: nat, fuel: nat)
    requires RankedBelow(l, lb) && RankedBelow(r, rb) && fuel > lb && fuel > rb
    ensures ZipEqualsWithin(l, r, fuel) == Ok(CompareTypes(Some(l), Some(r), lb, rb))
    decreases lb, 0, |l|
  {
    if l != [] && r != [] {
      EqualsWithinAgrees(l[0], r[0], fuel);
      ZipEqualsWithinAgrees(l[1..], r[1..], lb, rb, fuel);
      assert forall i :: 1 <= i < |l| && i < |r| ==> l[1..][i - 1] == l[i] && r[1..][i - 1] == r[i];
    }
  }
}
