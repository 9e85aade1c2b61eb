/**
 * XmlDocumentationExtensions: the documentation ID strings computed from
 * reflected nodes (section D.4.2 of ECMA-334), and the lookups that find the
 * documentation node whose key equals such an ID.
 *
 * GetXmlName recurses through generic arguments and, through FullName,
 * through declaring and element types; on a graph with a cycle the host
 * runs out of stack. The ID functions therefore take the remaining stack as
 * a budget and report StackOverflow when it runs out, like the bounded
 * getters of Reflection.
 */
module XmlNames {
  import opened Wrappers
  import opened Strings
  import opened Reflection
  import opened XmlInfo
  import opened CodeReferences

  /**
   * GetXmlName(DocsTypeInfo). The generic-parameter cases come first; a
   * constructed type lists its argument IDs in braces, a generic definition
   * appends its arity, any other type is its full name. FullName is read
   * before the argument list, so a missing list throws only after it.
   */
  function TypeId(t: TypeInfo?, fuel: nat): (r: Result<string, Exception>)
    reads *
    ensures fuel > 0 && t == null ==> r == Err(NullReference)
    ensures fuel > 0 && t != null && t.isGenericMethodParameter ==> r == Ok("``" + IntToString(t.genericParameterIndex))
    ensures fuel > 0 && t != null && !t.isGenericMethodParameter && t.isGenericTypeParameter
      ==> r == Ok("`" + IntToString(t.genericParameterIndex))
    ensures r.Ok? && t != null && !t.IsGenericParameter() && t.isGenericType ==> EndsWith(r.value, "}")
    decreases fuel, 0
  {
    if fuel == 0 then Err(StackOverflow)
    else if t == null then Err(NullReference)
    else if t.isGenericMethodParameter then Ok("``" + IntToString(t.genericParameterIndex))
    else if t.isGenericTypeParameter then Ok("`" + IntToString(t.genericParameterIndex))
    else
      var full := FullNameWithin(t, fuel - 1);
      if full.Err? then full
      else if t.isGenericType then
        if t.genericArguments.None? then Err(ArgumentNull("source"))
        else
          var args := TypeIds(t.genericArguments.value, fuel - 1);
          if args.Err? then Err(args.error)
          else
            var id := full.value + "{" + Join(",", args.value) + "}";
            assert id[|id| - 1..] == "}";
            Ok(id)
      else if t.isGenericTypeDefinition then
        if t.genericArguments.None? then Err(NullReference)
        else Ok(full.value + "`" + IntToString(|t.genericArguments.value|))
      else full
  }

  /** The IDs of a list of types, in order, stopping at the first that throws. */
  function TypeIds(ts: seq<TypeInfo>, fuel: nat): (r: Result<seq<string>, Exception>)
    reads *
    ensures r.Ok? ==> |r.value| == |ts|
    ensures r.Ok? ==> forall i :: 0 <= i < |ts| ==> TypeId(ts[i], fuel) == Ok(r.value[i])
    decreases fuel, 1, |ts|
  {
    if ts == [] then Ok([])
    else
      var first := TypeId(ts[0], fuel);
      if first.Err? then Err(first.error)
      else
        var rest := TypeIds(ts[1..], fuel);
        if rest.Err? then rest
        else
          var ids := [first.value] + rest.value;
          assert forall i | 0 <= i < |ts| :: TypeId(ts[i], fuel) == Ok(ids[i]) by {
            forall i | 1 <= i < |ts| ensures TypeId(ts[i], fuel) == Ok(ids[i]) {
              assert ts[i] == ts[1..][i - 1] && ids[i] == rest.value[i - 1];
            }
          }
          Ok(ids)
  }

  /** The IDs of the parameter types, in order; a parameter without a type throws. */
  function ParameterIds(ps: seq<ParameterInfo>, fuel: nat): (r: Result<seq<string>, Exception>)
    reads *
    ensures r.Ok? ==> |r.value| == |ps|
    ensures r.Ok? ==> forall i :: 0 <= i < |ps| ==> TypeId(ps[i].parameterType, fuel) == Ok(r.value[i])
    ensures fuel > 0 && (exists i :: 0 <= i < |ps| && ps[i].parameterType == null) ==> r.Err?
  {
    if ps == [] then Ok([])
    else
      var first := TypeId(ps[0].parameterType, fuel);
      if first.Err? then Err(first.error)
      else
        var rest := ParameterIds(ps[1..], fuel);
        if rest.Err? then rest
        else
          var ids := [first.value] + rest.value;
          assert forall i | 0 <= i < |ps| :: TypeId(ps[i].parameterType, fuel) == Ok(ids[i]) by {
            forall i | 1 <= i < |ps| ensures TypeId(ps[i].parameterType, fuel) == Ok(ids[i]) {
              assert ps[i] == ps[1..][i - 1] && ids[i] == rest.value[i - 1];
            }
          }
          Ok(ids)
  }

  /** "(" and the comma-joined parameter IDs and ")" after base, only when there are parameters. */
  function WithParameters(base: string, ps: seq<ParameterInfo>, fuel: nat): (r: Result<string, Exception>)
    reads *
    ensures |ps| == 0 ==> r == Ok(base)
    ensures r.Ok? ==> StartsWith(r.value, base)
  {
    if |ps| == 0 then Ok(base)
    else
      var ids := ParameterIds(ps, fuel);
      if ids.Err? then Err(ids.error)
      else
        var id := base + "(" + Join(",", ids.value) + ")";
        assert id[..|base|] == base;
        Ok(id)
  }

  /** GetXmlName(DocsMethodInfo): the declaring type's ID, ".", the name, "``" and the arity of a generic method, then the parameters. */
  function MethodId(m: MethodInfo, fuel: nat): (r: Result<string, Exception>)
    reads *
    ensures TypeId(m.declaringType, fuel).Err? ==> r == TypeId(m.declaringType, fuel)
    ensures r.Ok? ==> TypeId(m.declaringType, fuel).Ok? && StartsWith(r.value, TypeId(m.declaringType, fuel).value + ".")
  {
    var d := TypeId(m.declaringType, fuel);
    if d.Err? then d
    else
      var base := d.value + "." + Str(m.name) + ArityMark(m);
      PrefixOfPrefix(d.value + ".", base);
      var r := WithParameters(base, m.parameters, fuel);
      assert r.Ok? ==> StartsWith(r.value, d.value + ".") by {
        if r.Ok? { PrefixTransitive(r.value, base, d.value + "."); }
      }
      r
  }

  /** "``" and the number of generic arguments of a generic method, empty otherwise. */
  function ArityMark(m: MethodInfo): (r: string)
    reads m
    ensures '(' !in r
  {
    if m.genericArguments.Some? && |m.genericArguments.value| > 0 then
      var n := IntToString(|m.genericArguments.value|);
      assert forall i :: 0 <= i < |n| ==> IsDigit(n[i]);
      "``" + n
    else ""
  }

  /** A string starts with every prefix of a prefix of it. */
  lemma PrefixTransitive(s: string, p: string, q: string)
    requires StartsWith(s, p) && StartsWith(p, q)
    ensures StartsWith(s, q)
  {
    assert s[..|q|] == p[..|q|];
  }

  /** A string starts with anything it is built on. */
  lemma PrefixOfPrefix(p: string, s: string)
    requires |p| <= |s| && s[..|p|] == p
    ensures StartsWith(s, p)
  {
  }

  /** GetXmlName(DocsConstructorInfo): the declaring type's ID, ".#ctor", then the parameters. */
  function ConstructorId(c: MethodInfo, fuel: nat): (r: Result<string, Exception>)
    reads *
    ensures TypeId(c.declaringType, fuel).Err? ==> r == TypeId(c.declaringType, fuel)
    ensures r.Ok? ==> TypeId(c.declaringType, fuel).Ok? && StartsWith(r.value, TypeId(c.declaringType, fuel).value + ".#ctor")
  {
    var d := TypeId(c.declaringType, fuel);
    if d.Err? then d else WithParameters(d.value + ".#ctor", c.parameters, fuel)
  }

  /**
   * GetXmlName(DocsPropertyInfo): the declaring type's ID, "." and the name;
   * a property with index parameters adds them in parentheses, even an
   * empty list.
   */
  function PropertyId(p: PropertyInfo, fuel: nat): (r: Result<string, Exception>)
    reads *
    ensures TypeId(p.declaringType, fuel).Err? ==> r == TypeId(p.declaringType, fuel)
    ensures r.Ok? ==> TypeId(p.declaringType, fuel).Ok? && StartsWith(r.value, TypeId(p.declaringType, fuel).value + "." + Str(p.name))
    ensures r.Ok? && p.indexParameters.Some? ==> EndsWith(r.value, ")")
  {
    var d := TypeId(p.declaringType, fuel);
    if d.Err? then d
    else
      var base := d.value + "." + Str(p.name);
      if p.indexParameters.None? then Ok(base)
      else
        var ids := ParameterIds(p.indexParameters.value, fuel);
        if ids.Err? then Err(ids.error) else Ok(base + "(" + Join(",", ids.value) + ")")
  }

  /** GetXmlName(DocsMemberInfo), used for fields and events: the declaring type's ID, "." and the name. */
  function MemberId(declaringType: TypeInfo?, name: Option<string>, fuel: nat): (r: Result<string, Exception>)
    reads *
    ensures TypeId(declaringType, fuel).Err? ==> r == TypeId(declaringType, fuel)
    ensures r.Ok? ==> (TypeId(declaringType, fuel).Ok? && StartsWith(r.value, TypeId(declaringType, fuel).value + ".")
      && r.value[|TypeId(declaringType, fuel).value| + 1..] == Str(name))
  {
    var d := TypeId(declaringType, fuel);
    if d.Err? then d else Ok(d.value + "." + Str(name))
  }

  /** A reflected member that documentation is looked up for. */
  datatype MemberRef =
    | MethodRef(methodInfo: MethodInfo)
    | ConstructorRef(ctor: MethodInfo)
    | PropertyRef(property: PropertyInfo)
    | EventRef(eventInfo: EventInfo)
    | FieldRef(field: FieldInfo)

  /** The node kind the lookup of a member searches: constructors are documented as methods. */
  function KindOfRef(m: MemberRef): MemberKind
  {
    match m
    case MethodRef(_) => MethodMember
    case ConstructorRef(_) => MethodMember
    case PropertyRef(_) => PropertyMember
    case EventRef(_) => EventMember
    case FieldRef(_) => FieldMember
  }

  /** The ID of a member, by the overload its static type selects. */
  function RefId(m: MemberRef, fuel: nat): (r: Result<string, Exception>)
    reads *
  {
    match m
    case MethodRef(x) => MethodId(x, fuel)
    case ConstructorRef(x) => ConstructorId(x, fuel)
    case PropertyRef(x) => PropertyId(x, fuel)
    case EventRef(x) => MemberId(x.declaringType, x.name, fuel)
    case FieldRef(x) => MemberId(x.declaringType, x.name, fuel)
  }

  /**
   * A method's ID has a parameter list exactly when the method has
   * parameters, provided neither the declaring type's ID nor the name holds
   * a parenthesis of its own.
   */
  lemma {:induction false} MethodIdParenthesised(m: MethodInfo, fuel: nat)
    requires MethodId(m, fuel).Ok?
    requires '(' !in TypeId(m.declaringType, fuel).value && '(' !in Str(m.name)
    ensures '(' in MethodId(m, fuel).value <==> |m.parameters| > 0
  {
    var d := TypeId(m.declaringType, fuel).value;
    var base := d + "." + Str(m.name) + ArityMark(m);
    assert '(' !in base;
    if |m.parameters| > 0 {
      var ids := ParameterIds(m.parameters, fuel).value;
      var id := base + "(" + Join(",", ids) + ")";
      assert id[|base|] == '(';
    }
  }

  /** A ranked type with none of the generic flags is documented under its full name. */
  lemma {:induction false} PlainTypeIdIsFullName(t: TypeInfo, fuel: nat)
    requires t.Ranked() && fuel > t.depth + 2
    requires !t.isGenericMethodParameter && !t.isGenericTypeParameter && !t.isGenericType && !t.isGenericTypeDefinition
    ensures TypeId(t, fuel) == Ok(t.FullName())
  {
    FullNameWithinAgrees(t, fuel - 1);
  }

  /** A ranked generic definition is documented under its full name, a backtick and its arity. */
  lemma {:induction false} DefinitionTypeIdHasArity(t: TypeInfo, fuel: nat)
    requires t.Ranked() && fuel > t.depth + 2
    requires !t.isGenericMethodParameter && !t.isGenericTypeParameter && !t.isGenericType && t.isGenericTypeDefinition
    requires t.genericArguments.Some?
    ensures TypeId(t, fuel) == Ok(t.FullName() + "`" + IntToString(|t.genericArguments.value|))
  {
    FullNameWithinAgrees(t, fuel - 1);
  }

  /**
   * The key a documentation node gets is the ID its cref was written with:
   * a type or member documented under "K:" + id is found by exactly that id.
   */
  lemma {:induction false} DocumentedKeyIsId(s: string)
    requires Parse(Some(s)).Ok?
    ensures var c := Parse(Some(s)).value;
      (c.kind == Type ==> TypeKey(c) == s[2..])
      && (!IsBareKind(c.kind) && c.kind != Type ==> MemberKey(c) == s[2..])
      && (IsBareKind(c.kind) ==> c.ns == s[2..])
  {
    var c := Parse(Some(s)).value;
    ParseThenFormat(Some(s));
    KeysAreIdBodies(c);
  }

  /** FirstOrDefault over the namespace nodes of the member array: the first named name. */
  function FirstNamespaceNamed(members: seq<BaseInfo>, name: Option<string>): (r: Option<XmlDocNamespaceInfo>)
    ensures r.Some? ==> exists i :: 0 <= i < |members| && members[i] == NamespaceNode(r.value) && Some(r.value.Name()) == name
    ensures r.Some? <==> exists i :: 0 <= i < |members| && members[i].NamespaceNode? && Some(members[i].namespace.Name()) == name
    ensures r.Some? ==> forall i :: 0 <= i < |members| && members[i].NamespaceNode? && Some(members[i].namespace.Name()) == name ==>
      (members[i].namespace == r.value || exists j :: 0 <= j < i && members[j] == NamespaceNode(r.value))
  {
    if members == [] then None
    else if members[0].NamespaceNode? && Some(members[0].namespace.Name()) == name then Some(members[0].namespace)
    else
      var rest := FirstNamespaceNamed(members[1..], name);
      assert forall i :: 1 <= i < |members| ==> members[i] == members[1..][i - 1];
      rest
  }

  /** FirstOrDefault over the type nodes of the member array: the first whose key is id. */
  function FirstTypeNamed(members: seq<BaseInfo>, id: string): (r: Option<XmlDocTypeInfo>)
    ensures r.Some? ==> exists i :: 0 <= i < |members| && members[i] == TypeNode(r.value) && r.value.Name() == id
    ensures r.Some? <==> exists i :: 0 <= i < |members| && members[i].TypeNode? && members[i].typ.Name() == id
    ensures r.Some? ==> forall i :: 0 <= i < |members| && members[i].TypeNode? && members[i].typ.Name() == id ==>
      (members[i].typ == r.value || exists j :: 0 <= j < i && members[j] == TypeNode(r.value))
  {
    if members == [] then None
    else if members[0].TypeNode? && members[0].typ.Name() == id then Some(members[0].typ)
    else
      var rest := FirstTypeNamed(members[1..], id);
      assert forall i :: 1 <= i < |members| ==> members[i] == members[1..][i - 1];
      rest
  }

  /** FirstOrDefault over the member nodes of one kind: the first whose key is id. */
  function FirstMemberNamed(members: seq<BaseInfo>, kind: MemberKind, id: string): (r: Option<XmlDocMemberInfo>)
    ensures r.Some? ==> exists i :: 0 <= i < |members| && members[i] == MemberNode(r.value) && r.value.kind == kind && r.value.Name() == id
    ensures r.Some? <==> exists i :: (0 <= i < |members| && members[i].MemberNode?
      && members[i].member.kind == kind && members[i].member.Name() == id)
    ensures r.Some? ==> exists i :: (0 <= i < |members| && members[i] == MemberNode(r.value)
      && forall j :: 0 <= j < i ==> !MemberNamed(members[j], kind, id))
  {
    if members == [] then None
    else if MemberNamed(members[0], kind, id) then Some(members[0].member)
    else
      var rest := FirstMemberNamed(members[1..], kind, id);
      assert forall i :: 1 <= i < |members| ==> members[i] == members[1..][i - 1];
      assert rest.Some? ==> exists i :: (0 <= i < |members| && members[i] == MemberNode(rest.value)
        && forall j :: 0 <= j < i ==> !MemberNamed(members[j], kind, id)) by {
        if rest.Some? {
          var k :| 0 <= k < |members[1..]| && members[1..][k] == MemberNode(rest.value)
            && forall j :: 0 <= j < k ==> !MemberNamed(members[1..][j], kind, id);
          assert forall j :: 0 <= j < k + 1 ==> !MemberNamed(members[j], kind, id);
        }
      }
      rest
  }

  /** A member node of the kind whose key is id. */
  predicate MemberNamed(b: BaseInfo, kind: MemberKind, id: string)
  {
    b.MemberNode? && b.member.kind == kind && b.member.Name() == id
  }

  /** FirstOrDefault over one member list of a documented type: the first whose key is id. */
  function FirstInList(ms: seq<XmlDocMemberInfo>, id: string): (r: Option<XmlDocMemberInfo>)
    ensures r.Some? <==> exists i :: 0 <= i < |ms| && ms[i].Name() == id
    ensures r.Some? ==> exists i :: (0 <= i < |ms| && ms[i] == r.value && r.value.Name() == id
      && forall j :: 0 <= j < i ==> ms[j].Name() != id)
  {
    if ms == [] then None
    else if ms[0].Name() == id then Some(ms[0])
    else
      var rest := FirstInList(ms[1..], id);
      assert forall i :: 1 <= i < |ms| ==> ms[i] == ms[1..][i - 1];
      assert rest.Some? ==> exists i :: 0 <= i < |ms| && ms[i] == rest.value && rest.value.Name() == id && forall j :: 0 <= j < i ==> ms[j].Name() != id by {
        if rest.Some? {
          var k :| 0 <= k < |ms[1..]| && ms[1..][k] == rest.value && rest.value.Name() == id && forall j :: 0 <= j < k ==> ms[1..][j].Name() != id;
          assert forall j :: 0 <= j < k + 1 ==> ms[j].Name() != id;
        }
      }
      rest
  }

  /**
   * Get(XmlDocumentation, DocsNamespaceInfo): null in, null out; a missing
   * member array makes OfType throw.
   */
  function GetNamespace(doc: Option<XmlDocumentation>, ns: NamespaceInfo?): (r: Result<Option<XmlDocNamespaceInfo>, Exception>)
    reads ns
    ensures doc.None? || ns == null ==> r == Ok(None)
    ensures doc.Some? && ns != null && doc.value.members.None? ==> r == Err(ArgumentNull("source"))
    ensures r.Ok? && r.value.Some? ==> (ns != null && Some(r.value.value.Name()) == ns.name
      && doc.Some? && doc.value.members.Some? && NamespaceNode(r.value.value) in doc.value.members.value)
  {
    if doc.None? || ns == null then Ok(None)
    else if doc.value.members.None? then Err(ArgumentNull("source"))
    else Ok(FirstNamespaceNamed(doc.value.members.value, ns.name))
  }

  /** Get(XmlDocumentation, DocsTypeInfo): the type node keyed by the type's ID. */
  function GetType(doc: Option<XmlDocumentation>, t: TypeInfo?, fuel: nat): (r: Result<Option<XmlDocTypeInfo>, Exception>)
    reads *
    ensures doc.None? || t == null ==> r == Ok(None)
    ensures doc.Some? && t != null && TypeId(t, fuel).Err? ==> r == Err(TypeId(t, fuel).error)
    ensures doc.Some? && t != null && TypeId(t, fuel).Ok? && doc.value.members.None? ==> r == Err(ArgumentNull("source"))
    ensures r.Ok? && r.value.Some? ==> (t != null && TypeId(t, fuel) == Ok(r.value.value.Name())
      && doc.Some? && doc.value.members.Some? && TypeNode(r.value.value) in doc.value.members.value)
  {
    if doc.None? || t == null then Ok(None)
    else
      var id := TypeId(t, fuel);
      if id.Err? then Err(id.error)
      else if doc.value.members.None? then Err(ArgumentNull("source"))
      else Ok(FirstTypeNamed(doc.value.members.value, id.value))
  }

  /** The Get overloads of XmlDocumentation for members: the member node of the matching kind keyed by the ID. */
  function GetMember(doc: Option<XmlDocumentation>, m: Option<MemberRef>, fuel: nat): (r: Result<Option<XmlDocMemberInfo>, Exception>)
    reads *
    ensures doc.None? || m.None? ==> r == Ok(None)
    ensures doc.Some? && m.Some? && RefId(m.value, fuel).Err? ==> r == Err(RefId(m.value, fuel).error)
    ensures r.Ok? && r.value.Some? ==> (m.Some? && RefId(m.value, fuel) == Ok(r.value.value.Name())
      && r.value.value.kind == KindOfRef(m.value)
      && doc.Some? && doc.value.members.Some? && MemberNode(r.value.value) in doc.value.members.value)
  {
    if doc.None? || m.None? then Ok(None)
    else
      var id := RefId(m.value, fuel);
      if id.Err? then Err(id.error)
      else if doc.value.members.None? then Err(ArgumentNull("source"))
      else Ok(FirstMemberNamed(doc.value.members.value, KindOfRef(m.value), id.value))
  }

  /** The list of a documented type that a member of this kind is looked up in; constructors share the methods. */
  function ListFor(t: XmlDocTypeInfo, m: MemberRef): seq<XmlDocMemberInfo>
    reads t
  {
    t.MembersOf(KindOfRef(m))
  }

  /** The Get overloads of XmlDocTypeInfo: the first entry of the type's own list of that kind keyed by the ID. */
  function GetTypeMember(t: XmlDocTypeInfo?, m: Option<MemberRef>, fuel: nat): (r: Result<Option<XmlDocMemberInfo>, Exception>)
    reads *
    ensures t == null || m.None? ==> r == Ok(None)
    ensures t != null && m.Some? && RefId(m.value, fuel).Err? ==> r == Err(RefId(m.value, fuel).error)
    ensures t != null && m.Some? && RefId(m.value, fuel).Ok? ==>
      (r.Ok? && (r.value.Some? <==> exists i :: 0 <= i < |ListFor(t, m.value)| && ListFor(t, m.value)[i].Name() == RefId(m.value, fuel).value))
    ensures r.Ok? && r.value.Some? ==> (t != null && m.Some? && r.value.value in ListFor(t, m.value)
      && RefId(m.value, fuel) == Ok(r.value.value.Name()))
  {
    if t == null || m.None? then Ok(None)
    else
      var id := RefId(m.value, fuel);
      if id.Err? then Err(id.error)
      else Ok(FirstInList(ListFor(t, m.value), id.value))
  }
}
