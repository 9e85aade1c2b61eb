/**
 * The member lists ParseTypeMembers collects for one type, and how they are
 * appended to the type node.
 */
module TypeMembers {
  import opened Wrappers
  import opened Reflection

  /** The methods and the constructor nodes of a type. */
  datatype MethodLists = MethodLists(methods: seq<MethodInfo>, constructors: seq<MethodInfo>)

  /** The fields of a type, and the type of its value__ field when it is an enum that has one. */
  datatype FieldLists = FieldLists(fields: seq<FieldInfo>, underlying: Option<TypeInfo>)

  /** What ParseTypeMembers adds to a type, list by list. */
  datatype Members = Members(
    interfaces: seq<TypeInfo?>,
    properties: seq<PropertyInfo>,
    nestedTypes: seq<TypeInfo?>,
    events: seq<EventInfo>,
    methods: MethodLists,
    fields: FieldLists)

  /** The fields of a type node that parsing its members leaves alone. */
  datatype TypeHeader = TypeHeader(
    baseName: Option<string>, ns: Option<string>, attributes: bv32, elementType: TypeInfo?, baseType: TypeInfo?,
    declaringType: TypeInfo?, genericArguments: Option<seq<TypeInfo>>, isGenericTypeDefinition: bool,
    isExternalReference: bool, customAttributes: Option<seq<CustomAttributeData>>,
    assembly: AssemblyInfo?, moduleInfo: ModuleInfo?)

  function Header(t: TypeInfo): TypeHeader
    reads t
  {
    TypeHeader(t.baseName, t.ns, t.attributes, t.elementType, t.baseType, t.declaringType, t.genericArguments,
      t.isGenericTypeDefinition, t.isExternalReference, t.customAttributes, t.assembly, t.moduleInfo)
  }

  predicate SameHeader(t: TypeInfo, h: TypeHeader)
    reads t
  {
    Header(t) == h
  }

  /** The member lists of a type node, in the order of Members. */
  function MemberLists(t: TypeInfo): Members
    reads t
  {
    Members(t.interfaceImplementations, t.properties, t.nestedTypes, t.events,
      MethodLists(t.methods, t.constructors),
      FieldLists(t.fields, if t.underlyingEnumType == null then None else Some(t.underlyingEnumType as TypeInfo)))
  }

  /**
   * Each list of t is the list before followed by the parsed one, and the
   * underlying enum type is replaced only when a value__ field was seen.
   */
  predicate Appended(t: TypeInfo, before: Members, added: Members)
    reads t
  {
    t.interfaceImplementations == before.interfaces + added.interfaces
    && t.properties == before.properties + added.properties
    && t.nestedTypes == before.nestedTypes + added.nestedTypes
    && t.events == before.events + added.events
    && t.methods == before.methods.methods + added.methods.methods
    && t.constructors == before.methods.constructors + added.methods.constructors
    && t.fields == before.fields.fields + added.fields.fields
    && t.underlyingEnumType == (if added.fields.underlying.Some? then added.fields.underlying.value
                                else if before.fields.underlying.Some? then before.fields.underlying.value else null)
  }

  /** The lists of `before` followed by those of `added`; a value__ field replaces the underlying enum type. */
  function Concat(before: Members, added: Members): (r: Members)
  {
    Members(before.interfaces + added.interfaces, before.properties + added.properties,
      before.nestedTypes + added.nestedTypes, before.events + added.events,
      MethodLists(before.methods.methods + added.methods.methods, before.methods.constructors + added.methods.constructors),
      FieldLists(before.fields.fields + added.fields.fields,
        if added.fields.underlying.Some? then added.fields.underlying else before.fields.underlying))
  }

  /** Appends parsed member lists to a type node (the AddRange calls of ParseTypeMembers). */
  method AddMembers(t: TypeInfo, m: Members)
    modifies t
    ensures SameHeader(t, old(Header(t)))
    ensures Appended(t, old(MemberLists(t)), m)
  {
    var after := Concat(MemberLists(t), m);
    SetTypeLists(t, after);
    SetMethodLists(t, after);
  }

  /** Stores the interface, property, nested-type and event lists of m in t. */
  method SetTypeLists(t: TypeInfo, m: Members)
    modifies t
    ensures SameHeader(t, old(Header(t)))
    ensures MemberLists(t) == old(MemberLists(t)).(interfaces := m.interfaces, properties := m.properties,
                                                   nestedTypes := m.nestedTypes, events := m.events)
  {
    t.interfaceImplementations := m.interfaces;
    t.properties := m.properties;
    t.nestedTypes := m.nestedTypes;
    t.events := m.events;
  }

  /** Stores the method, constructor and field lists and the underlying enum type of m in t. */
  method SetMethodLists(t: TypeInfo, m: Members)
    modifies t
    ensures SameHeader(t, old(Header(t)))
    ensures MemberLists(t) == old(MemberLists(t)).(methods := m.methods, fields := m.fields)
  {
    t.methods := m.methods.methods;
    t.constructors := m.methods.constructors;
    t.fields := m.fields.fields;
    t.underlyingEnumType := if m.fields.underlying.Some? then m.fields.underlying.value else null;
  }

  /** Sets the name, namespace and attributes of a type node. */
  method SetNames(t: TypeInfo, baseName: Option<string>, ns: Option<string>, attributes: bv32)
    modifies t
    ensures Header(t) == old(Header(t)).(baseName := baseName, ns := ns, attributes := attributes)
    ensures MemberLists(t) == old(MemberLists(t))
  {
    t.baseName := baseName;
    t.ns := ns;
    t.attributes := attributes;
  }

  /**
   * Sets the declaring type, the generic arguments and the base type of a
   * type node; it is a generic type definition exactly when it has generic
   * arguments.
   */
  method SetLinks(t: TypeInfo, declaringType: TypeInfo?, genericArguments: Option<seq<TypeInfo>>, baseType: TypeInfo?)
    modifies t
    ensures Header(t) == old(Header(t)).(declaringType := declaringType, genericArguments := genericArguments,
                                         isGenericTypeDefinition := genericArguments.Some?, baseType := baseType)
    ensures MemberLists(t) == old(MemberLists(t))
  {
    t.declaringType := declaringType;
    t.genericArguments := genericArguments;
    t.isGenericTypeDefinition := genericArguments.Some?;
    t.baseType := baseType;
  }

  /** Sets the custom attributes, the assembly and the module of a type node. */
  method SetOrigin(t: TypeInfo, customAttributes: seq<CustomAttributeData>, assembly: AssemblyInfo?, moduleInfo: ModuleInfo?)
    modifies t
    ensures Header(t) == old(Header(t)).(customAttributes := Some(customAttributes), assembly := assembly, moduleInfo := moduleInfo)
    ensures MemberLists(t) == old(MemberLists(t))
  {
    t.customAttributes := Some(customAttributes);
    t.assembly := assembly;
    t.moduleInfo := moduleInfo;
  }

  /** The header fields ParseType sets on a type node. */
  datatype HeaderFields = HeaderFields(
    baseName: string, ns: string, attributes: bv32,
    declaringType: TypeInfo?, genericArguments: Option<seq<TypeInfo>>, baseType: TypeInfo?,
    customAttributes: seq<CustomAttributeData>, assembly: AssemblyInfo?, moduleInfo: ModuleInfo?)

  /** The header of t once ParseType has set the fields of f on it. */
  function WithFields(h: TypeHeader, f: HeaderFields): TypeHeader
  {
    h.(baseName := Some(f.baseName), ns := Some(f.ns), attributes := f.attributes,
       declaringType := f.declaringType, genericArguments := f.genericArguments,
       isGenericTypeDefinition := f.genericArguments.Some?, baseType := f.baseType,
       customAttributes := Some(f.customAttributes), assembly := f.assembly, moduleInfo := f.moduleInfo)
  }

  /** The assignments of ParseType to the header of a type node; the member lists stay. */
  method SetHeader(t: TypeInfo, f: HeaderFields)
    modifies t
    ensures Header(t) == WithFields(old(Header(t)), f)
    ensures MemberLists(t) == old(MemberLists(t))
  {
    SetNames(t, Some(f.baseName), Some(f.ns), f.attributes);
    SetLinks(t, f.declaringType, f.genericArguments, f.baseType);
    SetOrigin(t, f.customAttributes, f.assembly, f.moduleInfo);
  }
}
