/**
 * The nodes built from an XML documentation file: the per-member record the
 * parser fills in (XmlDerivedInfo) and the namespace, type and member nodes
 * the relation pass links together.
 */
module XmlInfo {
  import opened Wrappers
  import opened Strings
  import opened CodeReferences
  import opened DocTexts

  /**
   * Everything parsed from one <member> element. Exceptions and permissions
   * are keyed in C# by freshly parsed CodeReference objects, which compare by
   * identity, so no two entries ever merge: they are kept as a list of
   * (cref, text) entries in document order.
   */
  datatype DerivedInfo = DerivedInfo(
    inheritDoc: bool,
    inheritDocCref: Option<CodeReference>,
    name: CodeReference,
    summary: Option<DocText>,
    remarks: Option<DocText>,
    example: Option<DocText>,
    valueDoc: Option<DocText>,
    returnsDoc: Option<DocText>,
    parameters: map<string, DocText>,
    typeParameters: map<string, DocText>,
    exceptions: seq<(CodeReference, DocText)>,
    permissions: seq<(CodeReference, DocText)>,
    seeAlso: seq<Option<CodeReference>>)

  /** A record with only its name set, as object initialisers create it. */
  function Blank(name: CodeReference): DerivedInfo
  {
    DerivedInfo(false, None, name, None, None, None, None, None, map[], map[], [], [], [])
  }

  /** The lookup key of a type: "{Namespace}.{TypeName}" of its cref. */
  function TypeKey(c: CodeReference): string
  {
    c.ns + "." + Str(c.typeName)
  }

  /** The lookup key of a member: "{Namespace}.{TypeName}.{MemberName}" of its cref. */
  function MemberKey(c: CodeReference): string
  {
    c.ns + "." + Str(c.typeName) + "." + Str(c.memberName)
  }

  /** Every node's key is its ID string with the "K:" prefix dropped. */
  lemma {:induction false} KeysAreIdBodies(c: CodeReference)
    ensures c.kind == Type ==> TypeKey(c) == Format(c)[2..]
    ensures IsBareKind(c.kind) ==> c.ns == Format(c)[2..]
    ensures !IsBareKind(c.kind) && c.kind != Type ==> MemberKey(c) == Format(c)[2..]
  {
    var k := KindChar(c.kind);
    if c.kind == Type {
      assert Format(c) == ['T', ':'] + TypeKey(c);
    } else if IsBareKind(c.kind) {
      assert Format(c) == [k, ':'] + c.ns;
    } else {
      assert Format(c) == [k, ':'] + MemberKey(c);
    }
  }

  datatype MemberKind = MethodMember | PropertyMember | FieldMember | EventMember

  /** XmlDocNamespaceInfo */
  class XmlDocNamespaceInfo {
    const info: DerivedInfo
    var types: seq<XmlDocTypeInfo>

    constructor (info: DerivedInfo)
      ensures this.info == info && types == []
    {
      this.info := info;
      types := [];
    }

    /** Types.Add */
    method AddType(t: XmlDocTypeInfo)
      modifies this
      ensures types == old(types) + [t]
    {
      types := types + [t];
    }

    /** The namespace's key is its cref's namespace part. */
    function Name(): string
    {
      info.name.ns
    }
  }

  /** XmlDocTypeInfo: its namespace and member lists are filled in by the relation pass. */
  class XmlDocTypeInfo {
    const info: DerivedInfo
    var ns: XmlDocNamespaceInfo?
    var properties: seq<XmlDocMemberInfo>
    var fields: seq<XmlDocMemberInfo>
    var events: seq<XmlDocMemberInfo>
    var methods: seq<XmlDocMemberInfo>

    constructor (info: DerivedInfo)
      ensures this.info == info && ns == null
      ensures properties == [] && fields == [] && events == [] && methods == []
    {
      this.info := info;
      ns := null;
      properties := [];
      fields := [];
      events := [];
      methods := [];
    }

    function Name(): string
    {
      TypeKey(info.name)
    }

    /** The derived record's own map, not a copy. */
    function TypeParameters(): map<string, DocText>
    {
      info.typeParameters
    }

    /** The member list of one kind. */
    function MembersOf(k: MemberKind): seq<XmlDocMemberInfo>
      reads this
    {
      match k
      case MethodMember => methods
      case PropertyMember => properties
      case FieldMember => fields
      case EventMember => events
    }

    /** Methods.Add, Properties.Add, Fields.Add or Events.Add, by the member's kind. */
    method AddMember(m: XmlDocMemberInfo)
      modifies this
      ensures MembersOf(m.kind) == old(MembersOf(m.kind)) + [m]
      ensures forall k :: k != m.kind ==> MembersOf(k) == old(MembersOf(k))
      ensures ns == old(ns)
    {
      match m.kind
      case MethodMember => methods := methods + [m];
      case PropertyMember => properties := properties + [m];
      case FieldMember => fields := fields + [m];
      case EventMember => events := events + [m];
    }
  }

  /**
   * XmlDocMethodInfo, XmlDocPropertyInfo, XmlDocFieldInfo and
   * XmlDocEventInfo, told apart by kind. The property's Parameters,
   * Exceptions and Value are settable properties of its own, not views of
   * the derived record, and nothing assigns them.
   */
  class XmlDocMemberInfo {
    const info: DerivedInfo
    const kind: MemberKind
    var declaringType: XmlDocTypeInfo?
    var propertyParameters: Option<map<string, DocText>>
    var propertyExceptions: Option<seq<(CodeReference, DocText)>>
    var propertyValue: Option<DocText>

    constructor (info: DerivedInfo, kind: MemberKind)
      ensures this.info == info && this.kind == kind && declaringType == null
      ensures propertyParameters.None? && propertyExceptions.None? && propertyValue.None?
    {
      this.info := info;
      this.kind := kind;
      declaringType := null;
      propertyParameters := None;
      propertyExceptions := None;
      propertyValue := None;
    }

    function Name(): string
    {
      MemberKey(info.name)
    }

    /** The key of the type this member belongs to. */
    function DeclaringKey(): string
    {
      TypeKey(info.name)
    }

    /** XmlDocMethodInfo.Parameters: the derived record's map. */
    function MethodParameters(): map<string, DocText>
    {
      info.parameters
    }

    /** XmlDocMethodInfo.TypeParameters: the derived record's map. */
    function MethodTypeParameters(): map<string, DocText>
    {
      info.typeParameters
    }

    /** XmlDocMethodInfo.Returns: the derived record's text. */
    function MethodReturns(): Option<DocText>
    {
      info.returnsDoc
    }

    /** XmlDocMethodInfo.Exceptions: the derived record's entries. */
    function MethodExceptions(): seq<(CodeReference, DocText)>
    {
      info.exceptions
    }
  }

  /** An entry of the parsed documentation's member array. */
  datatype BaseInfo =
    | NamespaceNode(namespace: XmlDocNamespaceInfo)
    | TypeNode(typ: XmlDocTypeInfo)
    | MemberNode(member: XmlDocMemberInfo)
  {
    function Name(): string
    {
      match this
      case NamespaceNode(n) => n.Name()
      case TypeNode(t) => t.Name()
      case MemberNode(m) => m.Name()
    }
  }

  /** XmlDocumentation: the assembly name and the member array, either possibly null. */
  datatype XmlDocumentation = XmlDocumentation(assemblyName: Option<string>, members: Option<seq<BaseInfo>>)
}
