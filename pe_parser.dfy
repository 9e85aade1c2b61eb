/**
 * DocsPEParser: the extractor that walks the TypeDef table of an image and
 * fills the registry's nodes with names, generic parameters, members,
 * custom attributes and constants; Parse then runs the pass of the
 * Accessors module, which moves property and event accessors out of the
 * method lists of the definition nodes.
 */
module PEParser {
  import opened Wrappers
  import opened Strings
  import opened Reflection
  import opened Metadata
  import opened SignatureTypes
  import opened InfoProvider
  import opened Constants
  import CodeReferences
  import MethodFlags
  import opened TypeMembers
  import Accessors

  /** IsGeneratedTypeName: compiler-generated types start with "<" or "__StaticArrayInitTypeSize=". */
  predicate IsGeneratedTypeName(name: string)
  {
    StartsWith(name, "<") || StartsWith(name, "__StaticArrayInitTypeSize=")
  }

  /** The generic arity suffix removed: everything before the first backtick. */
  function StripArity(name: string): (r: string)
    ensures r <= name
    ensures '`' !in r
    ensures |r| < |name| ==> name[|r|] == '`'
  {
    IndexOfFirst(name, '`');
    var k := IndexOf(name, '`');
    if k >= 0 then name[..k] else name
  }

  /** Stripping a name that has no backtick leaves it alone, so stripping twice is stripping once. */
  lemma {:induction false} StripArityIdempotent(name: string)
    ensures StripArity(StripArity(name)) == StripArity(name)
  {
    IndexOfFirst(StripArity(name), '`');
  }

  /** The name before the arity suffix is what remains. */
  lemma {:induction false} StripAritySuffix(base: string, suffix: string)
    requires '`' !in base
    ensures StripArity(base + "`" + suffix) == base
  {
    var name := base + "`" + suffix;
    IndexOfAppend(base, "`" + suffix, '`');
    assert name[..|base|] == base;
  }

  /** Stripping the arity never changes whether a name is a generated one. */
  lemma {:induction false} GeneratedIgnoresArity(name: string)
    ensures IsGeneratedTypeName(StripArity(name)) == IsGeneratedTypeName(name)
  {
    var r := StripArity(name);
    var long := "__StaticArrayInitTypeSize=";
    assert r == name[..|r|];
    if StartsWith(name, "<") {
      assert r[..1] == name[..1];
    }
    if StartsWith(name, long) {
      assert r[..|long|] == name[..|long|];
    }
  }

  /** The method names ParseMethod skips: lambdas and other generated methods, and static initialisers. */
  predicate IsDroppedMethodName(name: string)
  {
    StartsWith(name, "<") || name == ".cctor"
  }

  /** The fields ParseField skips: the backing fields of auto-properties. */
  predicate IsBackingField(name: string)
  {
    EndsWith(name, "__BackingField")
  }

  /**
   * The Param rows the pairing loop of ParseMethod reads, as written: the
   * k-th row enumerated goes with the k-th signature type, and rows past the
   * signature's length are skipped.
   */
  function AsWrittenRows(rows: seq<ParameterRow>, count: nat): (r: seq<ParameterRow>)
    ensures |r| == Min(|rows|, count)
    ensures forall i :: 0 <= i < |r| ==> r[i] == rows[i]
  {
    rows[..Min(|rows|, count)]
  }

  function Min(a: nat, b: nat): nat
  {
    if a < b then a else b
  }

  /** The elements of s that keep accepts, in order (the Where of a LINQ chain). */
  function Filter<T>(s: seq<T>, keep: T -> bool): (r: seq<T>)
    ensures |r| <= |s|
    decreases |s|
  {
    if s == [] then []
    else Filter(s[..|s| - 1], keep) + (if keep(s[|s| - 1]) then [s[|s| - 1]] else [])
  }

  /** Filtering keeps exactly the accepted elements. */
  lemma {:induction false} FilterMembers<T>(s: seq<T>, keep: T -> bool, x: T)
    ensures x in Filter(s, keep) <==> x in s && keep(x)
    decreases |s|
  {
    if s != [] {
      var init := s[..|s| - 1];
      FilterMembers(init, keep, x);
      assert s == init + [s[|s| - 1]];
    }
  }

  /** When every element is accepted, filtering changes nothing. */
  lemma {:induction false} FilterAll<T>(s: seq<T>, keep: T -> bool)
    requires forall i :: 0 <= i < |s| ==> keep(s[i])
    ensures Filter(s, keep) == s
    decreases |s|
  {
    if s != [] {
      FilterAll(s[..|s| - 1], keep);
      assert s == s[..|s| - 1] + [s[|s| - 1]];
    }
  }

  /** Filtering one more element appends it when it is accepted. */
  lemma {:induction false} FilterStep<T>(s: seq<T>, i: nat, keep: T -> bool)
    requires i < |s|
    ensures Filter(s[..i + 1], keep) == Filter(s[..i], keep) + (if keep(s[i]) then [s[i]] else [])
  {
    assert s[..i + 1][..i] == s[..i];
  }

  /**
   * A method whose return value carries a Param row (sequence 0, as an
   * attribute on the return value produces) before its one parameter's row:
   * the pairing names the parameter after the return value's row and drops
   * the parameter's own row.
   */
  lemma ReturnRowShiftsNames()
    ensures var ret := ParameterRow(0, "", 0, None, []);
      var arg := ParameterRow(1, "value", 0, None, []);
      var paired := AsWrittenRows([ret, arg], 1);
      |paired| == 1 && paired[0].sequence != 1 && paired[0].name == "" && arg !in paired
  {
  }

  /** The first Param row describing position sequence, if any. */
  function RowWithSequence(rows: seq<ParameterRow>, sequence: nat): (r: Option<ParameterRow>)
    ensures r.Some? ==> r.value in rows && r.value.sequence == sequence
    ensures r.None? ==> forall i :: 0 <= i < |rows| ==> rows[i].sequence != sequence
  {
    if rows == [] then None
    else if rows[0].sequence == sequence then Some(rows[0])
    else RowWithSequence(rows[1..], sequence)
  }

  /**
   * The pairing the loop evidently intends: slot k of count parameters takes
   * the row whose sequence is k + 1, and a parameter without a row gets none.
   */
  function ParameterSlots(rows: seq<ParameterRow>, count: nat): (r: seq<Option<ParameterRow>>)
    ensures |r| == count
  {
    seq(count, k requires 0 <= k < count => RowWithSequence(rows, k + 1))
  }

  /**
   * The intended pairing matches every parameter with its own row: a slot
   * holds a row of its position, it is empty only when no row describes
   * that position, and no row of a parameter position is lost.
   */
  lemma {:induction false} ParameterSlotsMatchSequence(rows: seq<ParameterRow>, count: nat)
    ensures forall k :: 0 <= k < count && ParameterSlots(rows, count)[k].Some? ==>
      (ParameterSlots(rows, count)[k].value.sequence == k + 1)
    ensures forall k :: 0 <= k < count && ParameterSlots(rows, count)[k].None? ==>
      (forall i :: 0 <= i < |rows| ==> rows[i].sequence != k + 1)
    ensures forall i :: 0 <= i < |rows| && 1 <= rows[i].sequence <= count ==>
      (ParameterSlots(rows, count)[rows[i].sequence - 1].Some?)
  {
    var slots := ParameterSlots(rows, count);
    forall i | 0 <= i < |rows| && 1 <= rows[i].sequence <= count
      ensures slots[rows[i].sequence - 1].Some?
    {
      assert slots[rows[i].sequence - 1] == RowWithSequence(rows, rows[i].sequence);
    }
  }

  /**
   * When the rows are exactly the parameters in order (sequences 1, 2, ...),
   * as compilers write them for methods without return-value attributes,
   * the written pairing and the intended one agree.
   */
  lemma {:induction false} PairingsAgreeOnSequentialRows(rows: seq<ParameterRow>, count: nat)
    requires forall i :: 0 <= i < |rows| ==> rows[i].sequence == i + 1
    ensures forall k :: 0 <= k < Min(|rows|, count) ==> ParameterSlots(rows, count)[k] == Some(AsWrittenRows(rows, count)[k])
  {
    forall k | 0 <= k < Min(|rows|, count)
      ensures ParameterSlots(rows, count)[k] == Some(rows[k])
    {
      RowWithSequenceAt(rows, k, 1);
    }
  }

  /** In rows numbered from base, position k + base is row k. */
  lemma {:induction false} RowWithSequenceAt(rows: seq<ParameterRow>, k: nat, base: nat)
    requires forall i :: 0 <= i < |rows| ==> rows[i].sequence == i + base
    requires k < |rows|
    ensures RowWithSequence(rows, k + base) == Some(rows[k])
    decreases k
  {
    if k > 0 {
      assert forall i :: 0 <= i < |rows[1..]| ==> rows[1..][i].sequence == rows[i + 1].sequence;
      RowWithSequenceAt(rows[1..], k - 1, base + 1);
      assert rows[1..][k - 1] == rows[k];
    }
  }

  /** What the name getters and IsEnum read on one node. */
  datatype NameNode = NameNode(
    node: TypeInfo,
    element: TypeInfo?,
    baseType: TypeInfo?,
    baseName: Option<string>,
    ns: Option<string>,
    decorations: string,
    external: bool)

  function Snap(t: TypeInfo): NameNode
    reads t
  {
    NameNode(t, t.elementType, t.baseType, t.baseName, t.ns, t.Decorations(), t.isExternalReference)
  }

  /** The element path NameWithin(t, fuel) walks, node by node. */
  ghost function PathView(t: TypeInfo, fuel: nat): seq<NameNode>
    reads *
    decreases fuel
  {
    if fuel == 0 then []
    else [Snap(t)] + (if t.elementType != null then PathView(t.elementType, fuel - 1) else [])
  }

  /** v is, in the current state, the element path of t within fuel. */
  ghost predicate IsPathView(v: seq<NameNode>, t: TypeInfo, fuel: nat)
    reads t, set i | 0 <= i < |v| :: v[i].node
  {
    |v| <= fuel
    && (fuel > 0 ==> |v| > 0 && v[0].node == t)
    && (forall i :: 0 <= i < |v| ==> Snap(v[i].node) == v[i])
    && (forall i :: 0 <= i < |v| - 1 ==> v[i].element == v[i + 1].node)
    && (0 < |v| < fuel ==> v[|v| - 1].element == null)
  }

  /** NameWithin read off a path. */
  function NameFromView(v: seq<NameNode>, fuel: nat): Result<string, Exception>
    decreases fuel
  {
    if fuel == 0 || v == [] then Err(StackOverflow)
    else
      var inner := if v[0].element != null then NameFromView(v[1..], fuel - 1) else Ok(CodeReferences.Str(v[0].baseName));
      if inner.Err? then inner else Ok(inner.value + v[0].decorations)
  }

  /** NamespaceWithin read off a path. */
  function NamespaceFromView(v: seq<NameNode>, fuel: nat): Result<Option<string>, Exception>
    decreases fuel
  {
    if fuel == 0 || v == [] then Err(StackOverflow)
    else if v[0].element != null then NamespaceFromView(v[1..], fuel - 1)
    else Ok(v[0].ns)
  }

  lemma {:induction false} PathViewIsView(t: TypeInfo, fuel: nat)
    ensures IsPathView(PathView(t, fuel), t, fuel)
    decreases fuel
  {
    if fuel > 0 && t.elementType != null {
      PathViewIsView(t.elementType, fuel - 1);
      var v := PathView(t, fuel);
      var w := PathView(t.elementType, fuel - 1);
      assert v == [Snap(t)] + w;
      assert forall i :: 1 <= i < |v| ==> v[i] == w[i - 1];
    }
  }

  /** The getters agree with what a path of the current state says. */
  lemma {:induction false} PathViewAgrees(v: seq<NameNode>, t: TypeInfo, fuel: nat)
    requires IsPathView(v, t, fuel)
    ensures NameWithin(t, fuel) == NameFromView(v, fuel)
    ensures NamespaceWithin(t, fuel) == NamespaceFromView(v, fuel)
    decreases fuel
  {
    if fuel > 0 {
      assert Snap(v[0].node) == v[0];
      if t.elementType != null {
        var w := v[1..];
        assert forall i :: 0 <= i < |w| ==> w[i] == v[i + 1];
        assert IsPathView(w, t.elementType, fuel - 1);
        PathViewAgrees(w, t.elementType, fuel - 1);
      }
    }
  }

  /** What IsEnum reads: the node, its base type, and the base type's element path. */
  datatype EnumView = EnumView(top: NameNode, base: Option<NameNode>, path: seq<NameNode>)

  ghost function EnumViewOf(t: TypeInfo, fuel: nat): EnumView
    reads *
  {
    if t.baseType == null then EnumView(Snap(t), None, [])
    else EnumView(Snap(t), Some(Snap(t.baseType)), PathView(t.baseType, if fuel > 0 then fuel - 1 else 0))
  }

  /** The nodes a view records. */
  function ViewNodes(e: EnumView): set<TypeInfo>
  {
    (if e.base.Some? then {e.base.value.node} else {}) + set i | 0 <= i < |e.path| :: e.path[i].node
  }

  /** e is, in the current state, what IsEnumWithin(t, fuel) reads. */
  ghost predicate IsEnumView(e: EnumView, t: TypeInfo, fuel: nat)
    reads t, ViewNodes(e)
  {
    e.top == Snap(t)
    && (e.base.Some? <==> t.baseType != null)
    && (e.base.Some? ==>
          e.base.value.node == t.baseType && Snap(e.base.value.node) == e.base.value
          && IsPathView(e.path, e.base.value.node, if fuel > 0 then fuel - 1 else 0))
  }

  /** IsEnumWithin read off a view. */
  function EnumFromView(e: EnumView, fuel: nat): Result<bool, Exception>
  {
    if fuel == 0 then Err(StackOverflow)
    else if e.base.None? || !e.base.value.external then Ok(false)
    else
      var name := NameFromView(e.path, fuel - 1);
      if name.Err? then Err(name.error)
      else if name.value != "Enum" then Ok(false)
      else
        var ns := NamespaceFromView(e.path, fuel - 1);
        if ns.Err? then Err(ns.error) else Ok(ns.value == Some("System"))
  }

  lemma {:induction false} EnumViewOfIsView(t: TypeInfo, fuel: nat)
    ensures IsEnumView(EnumViewOf(t, fuel), t, fuel)
  {
    if t.baseType != null {
      PathViewIsView(t.baseType, if fuel > 0 then fuel - 1 else 0);
    }
  }

  /**
   * IsEnumWithin agrees with what a view of the current state says; so a
   * view taken once keeps telling the answer for as long as the fields it
   * records are unchanged.
   */
  lemma {:induction false} EnumViewAgrees(e: EnumView, t: TypeInfo, fuel: nat)
    requires IsEnumView(e, t, fuel)
    ensures IsEnumWithin(t, fuel) == EnumFromView(e, fuel)
  {
    if fuel > 0 && t.baseType != null {
      PathViewAgrees(e.path, t.baseType, fuel - 1);
    }
  }

  /**
   * A view taken in an earlier state still describes the current one when
   * the nodes it records are unchanged, and then still tells IsEnum.
   */
  twostate lemma EnumViewKept(e: EnumView, t: TypeInfo, fuel: nat)
    requires old(IsEnumView(e, t, fuel))
    requires unchanged(t) && (e.base.Some? ==> unchanged(e.base.value.node))
    requires forall i :: 0 <= i < |e.path| ==> unchanged(e.path[i].node)
    ensures IsEnumView(e, t, fuel)
    ensures IsEnumWithin(t, fuel) == EnumFromView(e, fuel)
  {
    EnumViewAgrees(e, t, fuel);
  }

  /** A handle a GenericParamConstraint row may hold: a non-nil TypeDefOrRefOrSpec handle. */
  predicate IsTypeHandle(h: Handle)
  {
    !h.IsNil() && h.kind in {TypeDefinitionKind, TypeReferenceKind, TypeSpecificationKind}
  }

  /** Every constraint of the generic parameters is a type handle. */
  predicate ResolvableConstraints(ps: seq<GenericParameterRow>)
  {
    forall i, j :: 0 <= i < |ps| && 0 <= j < |ps[i].constraints| ==> IsTypeHandle(ps[i].constraints[j])
  }

  /**
   * The coded-index premise of the image: constraint handles of type and
   * method generic parameters are type handles.
   */
  predicate ConstraintsResolvable(reader: Reader)
  {
    forall r :: 0 <= r < |reader.typeDefinitions| ==>
      (ResolvableConstraints(reader.typeDefinitions[r].genericParameters)
       && forall m :: 0 <= m < |reader.typeDefinitions[r].methods| ==>
            ResolvableConstraints(reader.typeDefinitions[r].methods[m].genericParameters))
  }

  /**
   * A generic parameter node as ParseGenericArguments builds it from a
   * GenericParam row: named after the row, flagged as a method or a type
   * parameter, and otherwise blank, so its name is readable.
   */
  ghost predicate DeclaredParameter(t: TypeInfo, p: GenericParameterRow, isMethod: bool)
    reads t
  {
    t.baseName == Some(p.name) && t.ns.None?
    && t.isGenericTypeParameter == !isMethod && t.isGenericMethodParameter == isMethod
    && t.genericParameterAttributes == p.attributes && t.genericParameterIndex == 0
    && t.elementType == null && t.declaringType == null && t.genericArguments.None?
    && !t.isExternalReference && !t.isArray && !t.isPointer && !t.isByRef
    && t.genericParameterConstraints.Some? && |t.genericParameterConstraints.value| == |p.constraints|
  }

  /** The node of one generic parameter, its constraints already resolved. */
  method NewGenericParameter(p: GenericParameterRow, isMethod: bool, constraints: seq<TypeInfo>) returns (t: TypeInfo)
    requires |constraints| == |p.constraints|
    ensures fresh(t) && DeclaredParameter(t, p, isMethod) && t.genericParameterConstraints == Some(constraints)
    ensures t.ElementRanked()
  {
    t := new TypeInfo();
    t.baseName := Some(p.name);
    t.isGenericTypeParameter := !isMethod;
    t.isGenericMethodParameter := isMethod;
    t.genericParameterAttributes := p.attributes;
    t.genericParameterConstraints := Some(constraints);
  }

  /**
   * A parameter as the pairing loop builds it from a Param row: the row's
   * name, attributes and custom attributes, and the row's constant, when it
   * has one, as its default value.
   */
  ghost predicate ParameterFrom(p: ParameterInfo, row: ParameterRow)
    reads p
  {
    p.name == Some(row.name) && p.attributes == row.attributes && p.customAttributes.Some?
    && GetConstant(row.defaultValue).Ok?
    && (GetConstant(row.defaultValue).value.None? ==> !p.hasDefaultValue && p.defaultValue == NullValue)
    && (GetConstant(row.defaultValue).value.Some? ==> p.hasDefaultValue && p.defaultValue == GetConstant(row.defaultValue).value.value)
  }

  /** One parameter, its custom attributes and constant already read. */
  method NewParameter(row: ParameterRow, t: TypeInfo, cas: seq<CustomAttributeData>, c: Option<ConstantValue>) returns (p: ParameterInfo)
    requires GetConstant(row.defaultValue) == Ok(c)
    ensures fresh(p) && ParameterFrom(p, row) && p.parameterType == t && p.customAttributes == Some(cas)
  {
    p := new ParameterInfo(Some(row.name), row.attributes, t);
    p.customAttributes := Some(cas);
    if c.Some? {
      p.hasDefaultValue := true;
      p.defaultValue := c.value;
    }
  }

  /**
   * A method as ParseMethod builds it from a MethodDef row of owner: named
   * without the arity suffix, with the row's attributes, one parameter node
   * per generic parameter, a return type, and min(rows, signature types)
   * parameters paired as the loop pairs them.
   */
  ghost predicate MethodFrom(m: MethodInfo, row: MethodRow, owner: TypeInfo)
    reads m, set p | p in m.parameters, if m.genericArguments.Some? then set t | t in m.genericArguments.value else {}
  {
    !m.isConstructorNode && m.name == Some(StripArity(row.name)) && m.declaringType == owner
    && m.attributes == row.attributes && m.customAttributes.Some? && m.returnType != null
    && (m.genericArguments.None? <==> row.genericParameters == [])
    && (m.genericArguments.Some? ==>
          |m.genericArguments.value| == |row.genericParameters|
          && forall i :: 0 <= i < |row.genericParameters| ==> DeclaredParameter(m.genericArguments.value[i], row.genericParameters[i], true))
    && ParametersFrom(m.parameters, row)
  }

  /** The parameters of a method as the pairing loop builds them from its Param rows. */
  ghost predicate ParametersFrom(ps: seq<ParameterInfo>, row: MethodRow)
    reads set p | p in ps
  {
    |ps| == Min(|row.parameters|, |row.signature.parameterTypes|)
    && (forall i :: 0 <= i < |ps| ==>
          ParameterFrom(ps[i], AsWrittenRows(row.parameters, |row.signature.parameterTypes|)[i])
          && ps[i].parameterType != null)
  }

  /**
   * A constructor node as ParseTypeMembers builds it from the method parsed
   * out of a ".ctor" row: the method's name, attributes, parameters and
   * custom attributes, no generic parameters and no return type.
   */
  ghost predicate ConstructorFrom(c: MethodInfo, row: MethodRow, owner: TypeInfo)
    reads c, set p | p in c.parameters
  {
    c.isConstructorNode && c.name == Some(StripArity(row.name)) && c.declaringType == owner
    && c.attributes == row.attributes && c.customAttributes.Some? && c.genericArguments.None?
    && c.returnType == null && ParametersFrom(c.parameters, row)
  }

  /** What the member lists of a type record of a method node: its row's name, attributes and kind. */
  ghost predicate ListedFrom(m: MethodInfo, row: MethodRow, owner: TypeInfo)
    reads m
  {
    m.name == Some(StripArity(row.name)) && m.declaringType == owner && m.attributes == row.attributes
    && m.isConstructorNode == (StripArity(row.name) == ".ctor")
  }

  /**
   * parsed holds, row by row, what ParseListedMethod gave: None for a
   * dropped name, otherwise a node listed from the row.
   */
  ghost predicate MethodsParsedFrom(rows: seq<MethodRow>, parsed: seq<Option<MethodInfo>>, owner: TypeInfo)
    reads set j | 0 <= j < |parsed| && parsed[j].Some? :: parsed[j].value
  {
    |parsed| == |rows|
    && (forall j :: 0 <= j < |rows| ==> (parsed[j].None? <==> IsDroppedMethodName(rows[j].name)))
    && (forall j :: 0 <= j < |rows| && parsed[j].Some? ==> ListedFrom(parsed[j].value, rows[j], owner))
  }

  /** One more row parsed keeps MethodsParsedFrom. */
  lemma {:induction false} MethodsParsedStep(rows: seq<MethodRow>, parsed: seq<Option<MethodInfo>>, owner: TypeInfo,
                                              row: MethodRow, p: Option<MethodInfo>)
    requires MethodsParsedFrom(rows, parsed, owner)
    requires p.None? <==> IsDroppedMethodName(row.name)
    requires p.Some? ==> ListedFrom(p.value, row, owner)
    ensures MethodsParsedFrom(rows + [row], parsed + [p], owner)
  {
    var rs, ps := rows + [row], parsed + [p];
    forall j | 0 <= j < |rs|
      ensures (ps[j].None? <==> IsDroppedMethodName(rs[j].name)) && (ps[j].Some? ==> ListedFrom(ps[j].value, rs[j], owner))
    {
      if j < |rows| {
        assert rs[j] == rows[j] && ps[j] == parsed[j];
      }
    }
  }

  /** A method row ParseTypeMembers lists among the methods. */
  predicate IsListedMethod(row: MethodRow)
  {
    !IsDroppedMethodName(row.name) && StripArity(row.name) != ".ctor"
  }

  /** A method row ParseTypeMembers lists among the constructors. */
  predicate IsListedConstructor(row: MethodRow)
  {
    !IsDroppedMethodName(row.name) && StripArity(row.name) == ".ctor"
  }

  /** A method whose generic parameters have no element type, declared by a type whose arguments are readable, names its context. */
  lemma {:induction false} MethodContextNamed(m: MethodInfo)
    requires m.declaringType != null && ArgumentsNamed(m.declaringType.genericArguments)
    requires m.genericArguments.Some? ==> forall i :: 0 <= i < |m.genericArguments.value| ==> m.genericArguments.value[i].elementType == null
    ensures ContextNamed(MethodContext(m))
  {
  }

  /** A type whose generic arguments are readable names its own context. */
  lemma {:induction false} TypeContextNamed(t: TypeInfo)
    requires ArgumentsNamed(t.genericArguments)
    ensures ContextNamed(TypeContext(t))
  {
  }

  /**
   * A property as ParseProperty builds it from a Property row of owner: no
   * accessors yet, and index parameters only when the signature has
   * parameter types, one bare parameter per type.
   */
  ghost predicate PropertyFrom(p: PropertyInfo, row: PropertyRow, owner: TypeInfo)
    reads p, if p.indexParameters.Some? then set q | q in p.indexParameters.value else {}
  {
    p.name == Some(row.name) && p.declaringType == owner && p.customAttributes.Some?
    && p.propertyType != null && p.getMethod == null && p.setMethod == null
    && (p.indexParameters.None? <==> row.signature.parameterTypes == [])
    && (p.indexParameters.Some? ==>
          |p.indexParameters.value| == |row.signature.parameterTypes|
          && forall i :: 0 <= i < |row.signature.parameterTypes| ==> BareParameter(p.indexParameters.value[i]))
  }

  /** A parameter known only by its type, as the index parameters of ParseProperty are. */
  ghost predicate BareParameter(q: ParameterInfo)
    reads q
  {
    q.name.None? && q.attributes == 0 && q.parameterType != null && !q.hasDefaultValue && q.customAttributes.None?
  }

  /** The index parameters of ParseProperty: one fresh bare parameter per type. */
  method BareParameters(types: seq<TypeInfo>) returns (r: seq<ParameterInfo>)
    ensures |r| == |types|
    ensures forall i :: 0 <= i < |types| ==> fresh(r[i]) && BareParameter(r[i]) && r[i].parameterType == types[i]
  {
    r := [];
    var i := 0;
    while i < |types|
      invariant 0 <= i <= |types| && |r| == i
      invariant forall j :: 0 <= j < i ==> fresh(r[j]) && BareParameter(r[j]) && r[j].parameterType == types[j]
    {
      var q := new ParameterInfo(None, 0, types[i]);
      r := r + [q];
      i := i + 1;
    }
  }

  /** An event as ParseEvent builds it from an Event row of owner: no accessors yet. */
  ghost predicate EventFrom(e: EventInfo, row: EventRow, owner: TypeInfo)
    reads e
  {
    e.name == Some(row.name) && e.declaringType == owner && e.customAttributes.Some?
    && e.addMethod == null && e.removeMethod == null
  }

  /** A field as ParseField builds it from a Field row of owner, before its enum value. */
  ghost predicate FieldFrom(f: FieldInfo, row: FieldRow, owner: TypeInfo)
    reads f
  {
    f.name == Some(row.name) && f.declaringType == owner && f.attributes == row.attributes
    && f.fieldType != null && f.customAttributes.Some?
  }

  /**
   * The enum value ParseField gives a field: the row's constant when the
   * declaring type is an enum and the row has one, otherwise none.
   */
  function EnumValueOf(row: FieldRow, isEnum: bool): (v: ConstantValue)
    requires isEnum ==> GetConstant(row.defaultValue).Ok?
    ensures !isEnum || row.defaultValue.None? ==> v == NullValue
  {
    if isEnum && GetConstant(row.defaultValue).value.Some? then GetConstant(row.defaultValue).value.value else NullValue
  }

  /** A nested-type row that names a TypeDef row whose name is not a generated one. */
  predicate IsVisibleNested(reader: Reader, row: nat)
  {
    1 <= row <= |reader.typeDefinitions| && !IsGeneratedTypeName(reader.typeDefinitions[row - 1].name)
  }

  /** The nested-type rows ParseTypeMembers resolves. */
  function VisibleNested(reader: Reader, rows: seq<nat>): seq<nat>
  {
    Filter(rows, n => IsVisibleNested(reader, n))
  }

  /**
   * The split of the methods loop of ParseTypeMembers: each parsed method in
   * row order goes to the constructors when its row is a ".ctor" row and to
   * the methods otherwise; dropped rows contribute nothing.
   */
  method SplitMethods(ghost owner: TypeInfo, rows: seq<MethodRow>, parsed: seq<Option<MethodInfo>>) returns (lists: MethodLists)
    requires MethodsParsedFrom(rows, parsed, owner)
    ensures |lists.methods| == |Filter(rows, IsListedMethod)|
    ensures forall k :: 0 <= k < |lists.methods| ==>
      ListedFrom(lists.methods[k], Filter(rows, IsListedMethod)[k], owner)
    ensures |lists.constructors| == |Filter(rows, IsListedConstructor)|
    ensures forall k :: 0 <= k < |lists.constructors| ==>
      ListedFrom(lists.constructors[k], Filter(rows, IsListedConstructor)[k], owner)
  {
    var methods := CollectListed(owner, rows, parsed, IsListedMethod);
    var constructors := CollectListed(owner, rows, parsed, IsListedConstructor);
    lists := MethodLists(methods, constructors);
  }

  /** The parsed methods of the rows keep selects, in row order. */
  method CollectListed(ghost owner: TypeInfo, rows: seq<MethodRow>, parsed: seq<Option<MethodInfo>>, keep: MethodRow -> bool)
    returns (out: seq<MethodInfo>)
    requires |parsed| == |rows|
    requires forall j :: 0 <= j < |rows| && keep(rows[j]) ==> parsed[j].Some? && ListedFrom(parsed[j].value, rows[j], owner)
    ensures |out| == |Filter(rows, keep)|
    ensures forall k :: 0 <= k < |out| ==> ListedFrom(out[k], Filter(rows, keep)[k], owner)
  {
    out := [];
    var i := 0;
    while i < |rows|
      invariant 0 <= i <= |rows|
      invariant |out| == |Filter(rows[..i], keep)|
      invariant forall k :: 0 <= k < |out| ==> ListedFrom(out[k], Filter(rows[..i], keep)[k], owner)
    {
      FilterStep(rows, i, keep);
      if keep(rows[i]) {
        out := out + [parsed[i].value];
      }
      i := i + 1;
    }
    assert rows[..|rows|] == rows;
  }

  /** A field row ParseTypeMembers lists among the fields: not a backing field, and not the value__ field of an enum. */
  predicate IsListedField(row: FieldRow, isEnum: bool)
  {
    !IsBackingField(row.name) && !(row.name == "value__" && isEnum)
  }

  function ListedFields(rows: seq<FieldRow>, isEnum: bool): seq<FieldRow>
  {
    Filter(rows, row => IsListedField(row, isEnum))
  }

  /** A field as the fields loop records it: built from its row, with its enum value. */
  ghost predicate FieldWithValue(f: FieldInfo, row: FieldRow, owner: TypeInfo, isEnum: bool)
    reads f
  {
    FieldFrom(f, row, owner)
    && (isEnum ==> GetConstant(row.defaultValue).Ok?)
    && f.enumValue == EnumValueOf(row, isEnum)
  }

  /**
   * parsed holds, row by row, what ParseField gave: None for a backing
   * field, otherwise a field built from the row with its enum value.
   */
  ghost predicate FieldsParsedFrom(rows: seq<FieldRow>, parsed: seq<Option<FieldInfo>>, owner: TypeInfo, isEnum: bool)
    reads set j | 0 <= j < |parsed| && parsed[j].Some? :: parsed[j].value
  {
    |parsed| == |rows|
    && (forall j :: 0 <= j < |rows| ==> (parsed[j].None? <==> IsBackingField(rows[j].name)))
    && (forall j :: 0 <= j < |rows| && parsed[j].Some? ==> FieldWithValue(parsed[j].value, rows[j], owner, isEnum))
  }

  /** One more row parsed keeps FieldsParsedFrom. */
  lemma {:induction false} FieldsParsedStep(rows: seq<FieldRow>, parsed: seq<Option<FieldInfo>>, owner: TypeInfo, isEnum: bool,
                                             row: FieldRow, p: Option<FieldInfo>)
    requires FieldsParsedFrom(rows, parsed, owner, isEnum)
    requires p.None? <==> IsBackingField(row.name)
    requires p.Some? ==> FieldWithValue(p.value, row, owner, isEnum)
    ensures FieldsParsedFrom(rows + [row], parsed + [p], owner, isEnum)
  {
    var rs, ps := rows + [row], parsed + [p];
    forall j | 0 <= j < |rs|
      ensures (ps[j].None? <==> IsBackingField(rs[j].name))
      ensures ps[j].Some? ==> FieldWithValue(ps[j].value, rs[j], owner, isEnum)
    {
      if j < |rows| {
        assert rs[j] == rows[j] && ps[j] == parsed[j];
      }
    }
  }

  /**
   * The split of the fields loop of ParseTypeMembers: in row order, the
   * value__ field of an enum gives the underlying type (the last one wins),
   * every other parsed field is listed, and backing fields contribute nothing.
   */
  method SplitFields(ghost owner: TypeInfo, rows: seq<FieldRow>, parsed: seq<Option<FieldInfo>>, isEnum: bool) returns (lists: FieldLists)
    requires FieldsParsedFrom(rows, parsed, owner, isEnum)
    ensures |lists.fields| == |ListedFields(rows, isEnum)|
    ensures forall k :: 0 <= k < |lists.fields| ==> FieldWithValue(lists.fields[k], ListedFields(rows, isEnum)[k], owner, isEnum)
    ensures lists.underlying.Some? <==> isEnum && exists j :: 0 <= j < |rows| && rows[j].name == "value__"
  {
    var fields: seq<FieldInfo> := [];
    var underlying: Option<TypeInfo> := None;
    var i := 0;
    while i < |rows|
      invariant 0 <= i <= |rows|
      invariant |fields| == |ListedFields(rows[..i], isEnum)|
      invariant forall k :: 0 <= k < |fields| ==> FieldWithValue(fields[k], ListedFields(rows[..i], isEnum)[k], owner, isEnum)
      invariant underlying.Some? <==> isEnum && exists j :: 0 <= j < i && rows[j].name == "value__"
    {
      FilterStep(rows, i, row => IsListedField(row, isEnum));
      if parsed[i].Some? {
        if rows[i].name == "value__" && isEnum {
          underlying := Some(parsed[i].value.fieldType);
        } else {
          fields := fields + [parsed[i].value];
        }
      }
      i := i + 1;
    }
    assert rows[..|rows|] == rows;
    lists := FieldLists(fields, underlying);
  }

  /** The declaring type, generic arguments and base type ParseType resolves for a TypeDef row. */
  datatype TypeLinks = TypeLinks(declaringType: TypeInfo?, genericArguments: Option<seq<TypeInfo>>, baseType: TypeInfo?)

  /** The custom attributes, assembly and module ParseType gives a type. */
  datatype TypeOrigin = TypeOrigin(customAttributes: seq<CustomAttributeData>, assembly: AssemblyInfo?, moduleInfo: ModuleInfo)

  /** A decoded method or property signature. */
  datatype DecodedSig = DecodedSig(returnType: TypeInfo, parameterTypes: seq<TypeInfo>)

  /** What Parse returns: the assembly, the module, and the namespaces and types the registry holds. */
  datatype ParsedAssembly = ParsedAssembly(
    assembly: AssemblyInfo?,
    moduleInfo: ModuleInfo,
    namespaces: seq<NamespaceInfo>,
    types: seq<TypeInfo>)

  /**
   * DocsPEParser. The registry is the extractor's DocsInfoProvider; stack is
   * the recursion budget of the host, which bounds the type getters the
   * extractor calls.
   */
  class Extractor {
    const registry: Registry
    const stack: nat
    var didParse: bool
    var moduleInfo: ModuleInfo?

    /** A new extractor over a reader, with a registry of its own. */
    constructor (reader: Reader, hostAttributes: PrimitiveTypeCode -> bv32, stack: nat)
      ensures fresh(registry) && registry.reader == reader && registry.hostAttributes == hostAttributes
      ensures this.stack == stack && Unused()
    {
      registry := new Registry(reader, hostAttributes);
      this.stack := stack;
      didParse := false;
      moduleInfo := null;
    }

    /** Nothing parsed yet: no module, and every registry cache empty. */
    ghost predicate Unused()
      reads this, registry
    {
      !didParse && moduleInfo == null
      && registry.types == map[] && registry.typeReferences == map[] && registry.asmReferences == map[]
      && registry.namespaces == map[] && registry.typeOrder == [] && registry.namespaceOrder == []
      && registry.Valid()
    }

    /** The registry is consistent and the image meets the premises decoding needs. */
    ghost predicate Ready()
      reads registry, registry.types.Values`elementType, registry.types.Values`properties, registry.types.Values`events
      reads registry.typeReferences.Values`elementType
    {
      registry.Valid() && registry.Plain() && WellFormed(registry.reader)
    }

    /**
     * Between two states the type caches only grew, so what was resolved
     * stays resolved, and every definition and namespace node cached since
     * then was allocated since then.
     */
    twostate predicate Grows()
      reads registry
    {
      SubMap(old(registry.types), registry.types) && SubMap(old(registry.typeReferences), registry.typeReferences)
      && SubMap(old(registry.namespaces), registry.namespaces)
      && (forall h :: h in registry.types && h !in old(registry.types) ==> fresh(registry.types[h]))
      && (forall k :: k in registry.namespaces && k !in old(registry.namespaces) ==> fresh(registry.namespaces[k]))
    }

    /**
     * t is what resolving h gave: null for the nil handle, the cached node for
     * a definition or a reference, and some node for any type handle.
     */
    ghost predicate ResolvedAs(h: Handle, t: TypeInfo?)
      reads registry
    {
      (h.IsNil() ==> t == null)
      && (!h.IsNil() && h.kind == TypeDefinitionKind ==> h in registry.types && t == registry.types[h])
      && (!h.IsNil() && h.kind == TypeReferenceKind ==> h in registry.typeReferences && t == registry.typeReferences[h])
      && (IsTypeHandle(h) ==> t != null)
    }

    /** d is what ParseCustomAttribute builds from row. */
    ghost predicate AttributeFrom(row: CustomAttributeRow, d: CustomAttributeData)
      reads registry
    {
      row.value.Some?
      && d.fixedArguments == row.value.value.fixedArguments
      && d.namedArguments == row.value.value.namedArguments
      && (row.ctor.kind !in {MemberReferenceKind, MethodDefinitionKind} ==> d.attributeType == null)
      && (row.ctor.kind in {MemberReferenceKind, MethodDefinitionKind} ==> ResolvedAs(row.ctorParent, d.attributeType))
    }

    method Resolve(h: Handle) returns (r: Result<TypeInfo?, Exception>)
      requires Ready()
      modifies registry
      ensures Ready() && Grows()
      ensures r.Ok? ==> ResolvedAs(h, r.value)
      ensures h.IsNil() ==> r == Ok(null)
      ensures !h.IsNil() && h.kind == TypeDefinitionKind ==> r.Ok?
      ensures r.Ok? && r.value != null ==> r.value.ElementRanked()
      ensures SubMap(old(registry.namespaces), registry.namespaces)
      ensures !h.IsNil() && h.kind == TypeDefinitionKind && h !in old(registry.types) ==> fresh(r.value)
    {
      r := registry.ResolveType(h);
    }

    /**
     * ParseCustomAttributes: each row's attribute type and value in turn. A
     * BadImageFormatException anywhere, a value that fails to decode
     * included, gives the empty list; any other exception propagates.
     */
    method ParseCustomAttributes(rows: seq<CustomAttributeRow>) returns (r: Result<seq<CustomAttributeData>, Exception>)
      requires Ready()
      modifies registry
      ensures Ready() && Grows()
      ensures r.Err? ==> r.error != BadImageFormat
      ensures r.Ok? && r.value != [] ==>
        (|r.value| == |rows| && forall i :: 0 <= i < |rows| ==> AttributeFrom(rows[i], r.value[i]))
      ensures r.Ok? && (exists i :: 0 <= i < |rows| && rows[i].value.None?) ==> r.value == []
      ensures SubMap(old(registry.namespaces), registry.namespaces)
    {
      var out: seq<CustomAttributeData> := [];
      var i := 0;
      while i < |rows|
        invariant 0 <= i <= |rows| && |out| == i
        invariant Ready() && Grows() && SubMap(old(registry.namespaces), registry.namespaces)
        invariant forall j :: 0 <= j < i ==> AttributeFrom(rows[j], out[j])
      {
        var row := rows[i];
        var attributeType: TypeInfo? := null;
        if row.ctor.kind == MemberReferenceKind || row.ctor.kind == MethodDefinitionKind {
          var t := Resolve(row.ctorParent);
          if t.Err? {
            return if t.error == BadImageFormat then Ok([]) else Err(t.error);
          }
          attributeType := t.value;
        }
        if row.value.None? {
          return Ok([]);
        }
        out := out + [CustomAttributeData(attributeType, row.value.value.fixedArguments, row.value.value.namedArguments)];
        i := i + 1;
      }
      r := Ok(out);
    }

    /** The handles resolved in turn, as the Select(ResolveType) chains do. */
    method ResolveAll(handles: seq<Handle>) returns (r: Result<seq<TypeInfo?>, Exception>)
      requires Ready()
      modifies registry
      ensures Ready() && Grows()
      ensures r.Ok? ==> |r.value| == |handles| && forall i :: 0 <= i < |handles| ==> ResolvedAs(handles[i], r.value[i])
      ensures r.Ok? ==> forall i :: 0 <= i < |handles| && r.value[i] != null ==> r.value[i].ElementRanked()
      ensures (forall i :: 0 <= i < |handles| ==> !handles[i].IsNil() && handles[i].kind == TypeDefinitionKind) ==> r.Ok?
      ensures SubMap(old(registry.namespaces), registry.namespaces)
    {
      var out: seq<TypeInfo?> := [];
      var i := 0;
      while i < |handles|
        invariant 0 <= i <= |handles| && |out| == i
        invariant Ready() && Grows() && SubMap(old(registry.namespaces), registry.namespaces)
        invariant forall j :: 0 <= j < i ==> ResolvedAs(handles[j], out[j])
        invariant forall j :: 0 <= j < i && out[j] != null ==> out[j].ElementRanked()
      {
        var t := Resolve(handles[i]);
        if t.Err? {
          return Err(t.error);
        }
        out := out + [t.value];
        i := i + 1;
      }
      r := Ok(out);
    }

    /** The constraints of a generic parameter node are those of its row, resolved. */
    ghost predicate ConstraintsFrom(t: TypeInfo, p: GenericParameterRow)
      reads t, registry
    {
      t.genericParameterConstraints.Some? && |t.genericParameterConstraints.value| == |p.constraints|
      && (forall j :: 0 <= j < |p.constraints| ==> ResolvedAs(p.constraints[j], t.genericParameterConstraints.value[j]))
    }

    /** The constraint nodes of one generic parameter, in order. */
    method ResolveConstraints(handles: seq<Handle>) returns (r: Result<seq<TypeInfo>, Exception>)
      requires Ready() && forall i :: 0 <= i < |handles| ==> IsTypeHandle(handles[i])
      modifies registry
      ensures Ready() && Grows()
      ensures r.Ok? ==> |r.value| == |handles| && forall i :: 0 <= i < |handles| ==> ResolvedAs(handles[i], r.value[i])
    {
      var out: seq<TypeInfo> := [];
      var i := 0;
      while i < |handles|
        invariant 0 <= i <= |handles| && |out| == i
        invariant Ready() && Grows()
        invariant forall j :: 0 <= j < i ==> ResolvedAs(handles[j], out[j])
      {
        var t := Resolve(handles[i]);
        if t.Err? {
          return Err(t.error);
        }
        out := out + [t.value];
        i := i + 1;
      }
      r := Ok(out);
    }

    /**
     * ParseGenericArguments: null for no parameters; otherwise one fresh
     * parameter node per row, flagged as a method or a type parameter, with
     * its constraints resolved. The parameter index is left at zero.
     */
    method ParseGenericArguments(ps: seq<GenericParameterRow>, isMethod: bool) returns (r: Result<Option<seq<TypeInfo>>, Exception>)
      requires Ready() && ResolvableConstraints(ps)
      modifies registry
      ensures Ready() && Grows()
      ensures r.Ok? ==> (r.value.None? <==> ps == [])
      ensures r.Ok? && r.value.Some? ==>
        (|r.value.value| == |ps|
         && forall i :: 0 <= i < |ps| ==>
              (fresh(r.value.value[i]) && DeclaredParameter(r.value.value[i], ps[i], isMethod)
               && ConstraintsFrom(r.value.value[i], ps[i])))
    {
      if ps == [] {
        return Ok(None);
      }
      var out: seq<TypeInfo> := [];
      var i := 0;
      while i < |ps|
        invariant 0 <= i <= |ps| && |out| == i
        invariant Ready() && Grows()
        invariant forall j :: 0 <= j < i ==>
          (fresh(out[j]) && DeclaredParameter(out[j], ps[j], isMethod) && ConstraintsFrom(out[j], ps[j]))
      {
        var cs := ResolveConstraints(ps[i].constraints);
        if cs.Err? {
          return Err(cs.error);
        }
        var t := NewGenericParameter(ps[i], isMethod, cs.value);
        out := out + [t];
        i := i + 1;
      }
      r := Ok(Some(out));
    }

    /** One type signature decoded: never null, and readable by name. */
    method DecodeOne(sig: Sig, ctx: GenericContext) returns (r: Result<TypeInfo, Exception>)
      requires Ready() && ContextNamed(ctx)
      modifies registry
      ensures Ready() && Grows()
      ensures r.Ok? ==> r.value.ElementRanked()
      ensures ContextNamed(ctx)
      ensures sig.ClassSig? && !sig.handle.IsNil() && sig.handle.kind == TypeDefinitionKind
        ==> r.Ok? && sig.handle in registry.types && r.value == registry.types[sig.handle]
    {
      SpecBoundIsBound(sig);
      var t := registry.Decode(sig, ctx, SpecBound(sig));
      if t.Err? {
        return Err(t.error);
      }
      return Ok(t.value);
    }

    /** A method or property signature decoded in a generic context: the return type, then each parameter type in turn. */
    method DecodeSignature(sig: MethodSig, ctx: GenericContext) returns (r: Result<DecodedSig, Exception>)
      requires Ready() && ContextNamed(ctx)
      modifies registry
      ensures Ready() && Grows()
      ensures r.Ok? ==> |r.value.parameterTypes| == |sig.parameterTypes|
      ensures r.Ok? ==> r.value.returnType.ElementRanked()
      ensures r.Ok? ==> forall i :: 0 <= i < |sig.parameterTypes| ==> r.value.parameterTypes[i].ElementRanked()
    {
      var ret := DecodeOne(sig.returnType, ctx);
      if ret.Err? {
        return Err(ret.error);
      }
      var out: seq<TypeInfo> := [];
      var i := 0;
      while i < |sig.parameterTypes|
        invariant 0 <= i <= |sig.parameterTypes| && |out| == i
        invariant Ready() && Grows() && ContextNamed(ctx)
        invariant ret.value.ElementRanked()
        invariant forall j :: 0 <= j < i ==> out[j].ElementRanked()
      {
        var t := DecodeOne(sig.parameterTypes[i], ctx);
        if t.Err? {
          return Err(t.error);
        }
        out := out + [t.value];
        i := i + 1;
      }
      r := Ok(DecodedSig(ret.value, out));
    }

    /**
     * ParseParameters: the pairing loop of ParseMethod. Slot i takes the
     * i-th Param row enumerated and the i-th signature type, up to the
     * shorter of the two; the row gives the name, the attributes, the
     * custom attributes and the default value.
     */
    method ParseParameters(rows: seq<ParameterRow>, types: seq<TypeInfo>) returns (r: Result<seq<ParameterInfo>, Exception>)
      requires Ready()
      modifies registry
      ensures Ready() && Grows()
      ensures r.Ok? ==> |r.value| == Min(|rows|, |types|)
      ensures r.Ok? ==> forall i :: 0 <= i < |r.value| ==>
        (fresh(r.value[i]) && ParameterFrom(r.value[i], AsWrittenRows(rows, |types|)[i]) && r.value[i].parameterType == types[i])
      ensures (exists i :: 0 <= i < Min(|rows|, |types|) && GetConstant(rows[i].defaultValue).Err?) ==> r.Err?
    {
      var n := Min(|rows|, |types|);
      var out: seq<ParameterInfo> := [];
      var i := 0;
      while i < n
        invariant 0 <= i <= n && |out| == i
        invariant Ready() && Grows()
        invariant forall j :: 0 <= j < i ==> (fresh(out[j]) && ParameterFrom(out[j], rows[j]) && out[j].parameterType == types[j])
        invariant forall j :: 0 <= j < i ==> GetConstant(rows[j].defaultValue).Ok?
      {
        var cas := ParseCustomAttributes(rows[i].customAttributes);
        if cas.Err? {
          return Err(cas.error);
        }
        var c := GetConstant(rows[i].defaultValue);
        if c.Err? {
          return Err(c.error);
        }
        var p := NewParameter(rows[i], types[i], cas.value, c.value);
        out := out + [p];
        i := i + 1;
      }
      r := Ok(out);
    }

    /**
     * ParseMethod: lambdas and static initialisers give null. Otherwise a
     * fresh method named without its arity suffix, declared by owner, with
     * its custom attributes and generic parameters; its signature is decoded
     * in the method's own generic context, and its parameters paired with
     * their rows.
     */
    method ParseMethod(owner: TypeInfo, row: MethodRow) returns (r: Result<Option<MethodInfo>, Exception>)
      requires Ready() && ResolvableConstraints(row.genericParameters) && ArgumentsNamed(owner.genericArguments)
      modifies registry
      ensures Ready() && Grows()
      ensures IsDroppedMethodName(row.name) <==> r == Ok(None)
      ensures r.Ok? && r.value.Some? ==> fresh(r.value.value) && MethodFrom(r.value.value, row, owner)
      ensures r.Ok? && r.value.Some? ==> forall i :: 0 <= i < |r.value.value.parameters| ==> fresh(r.value.value.parameters[i])
    {
      if IsDroppedMethodName(row.name) {
        return Ok(None);
      }
      var header := ParseMethodHeader(owner, row);
      if header.Err? {
        return Err(header.error);
      }
      var m := header.value;
      MethodContextNamed(m);
      var done := ParseMethodSignature(m, row);
      if done.Err? {
        return Err(done.error);
      }
      r := Ok(Some(m));
    }

    /**
     * The second half of ParseMethod: the signature decoded in the method's
     * own generic context gives the return type and, paired with the Param
     * rows, the parameters.
     */
    method ParseMethodSignature(m: MethodInfo, row: MethodRow) returns (r: Result<(), Exception>)
      requires Ready() && ContextNamed(MethodContext(m))
      modifies registry, m
      ensures Ready() && Grows()
      ensures m.name == old(m.name) && m.declaringType == old(m.declaringType) && m.attributes == old(m.attributes)
      ensures m.customAttributes == old(m.customAttributes) && m.genericArguments == old(m.genericArguments)
      ensures m.documentation == old(m.documentation)
      ensures r.Ok? ==> m.returnType != null && |m.parameters| == Min(|row.parameters|, |row.signature.parameterTypes|)
      ensures r.Ok? ==> forall i :: 0 <= i < |m.parameters| ==>
        (fresh(m.parameters[i]) && m.parameters[i].parameterType != null
         && ParameterFrom(m.parameters[i], AsWrittenRows(row.parameters, |row.signature.parameterTypes|)[i]))
    {
      var sig := DecodeSignature(row.signature, MethodContext(m));
      if sig.Err? {
        return Err(sig.error);
      }
      var ps := ParseParameters(row.parameters, sig.value.parameterTypes);
      if ps.Err? {
        return Err(ps.error);
      }
      m.parameters := ps.value;
      m.returnType := sig.value.returnType;
      r := Ok(());
    }

    /**
     * The first half of ParseMethod: the fresh method with its name, declaring
     * type, attributes, custom attributes and generic parameters.
     */
    method ParseMethodHeader(owner: TypeInfo, row: MethodRow) returns (r: Result<MethodInfo, Exception>)
      requires Ready() && ResolvableConstraints(row.genericParameters)
      modifies registry
      ensures Ready() && Grows()
      ensures r.Ok? ==> fresh(r.value) && !r.value.isConstructorNode && r.value.name == Some(StripArity(row.name))
      ensures r.Ok? ==> r.value.declaringType == owner && r.value.attributes == row.attributes
      ensures r.Ok? ==> r.value.customAttributes.Some? && r.value.parameters == [] && r.value.returnType == null
      ensures r.Ok? ==> (r.value.genericArguments.None? <==> row.genericParameters == [])
      ensures r.Ok? && r.value.genericArguments.Some? ==>
        (|r.value.genericArguments.value| == |row.genericParameters|
         && forall i :: 0 <= i < |row.genericParameters| ==>
              (fresh(r.value.genericArguments.value[i])
               && DeclaredParameter(r.value.genericArguments.value[i], row.genericParameters[i], true)))
    {
      var m := new MethodInfo(false, Some(StripArity(row.name)), owner, row.attributes);
      var cas := ParseCustomAttributes(row.customAttributes);
      if cas.Err? {
        return Err(cas.error);
      }
      var gas := ParseGenericArguments(row.genericParameters, true);
      if gas.Err? {
        return Err(gas.error);
      }
      m.customAttributes := Some(cas.value);
      m.genericArguments := gas.value;
      r := Ok(m);
    }

    /**
     * ParseProperty: the signature decoded in the context of the declaring
     * type gives the property type and, when it has parameter types, the
     * index parameters; then the custom attributes.
     */
    method ParseProperty(owner: TypeInfo, row: PropertyRow) returns (r: Result<PropertyInfo, Exception>)
      requires Ready() && ArgumentsNamed(owner.genericArguments)
      modifies registry
      ensures Ready() && Grows()
      ensures r.Ok? ==> fresh(r.value) && PropertyFrom(r.value, row, owner)
    {
      TypeContextNamed(owner);
      var sig := DecodeSignature(row.signature, TypeContext(owner));
      if sig.Err? {
        return Err(sig.error);
      }
      var cas := ParseCustomAttributes(row.customAttributes);
      if cas.Err? {
        return Err(cas.error);
      }
      var index: Option<seq<ParameterInfo>> := None;
      if sig.value.parameterTypes != [] {
        var ps := BareParameters(sig.value.parameterTypes);
        index := Some(ps);
      }
      var p := new PropertyInfo(Some(row.name), owner, sig.value.returnType, index);
      p.customAttributes := Some(cas.value);
      r := Ok(p);
    }

    /** ParseEvent: the handler type resolved, then the custom attributes. */
    method ParseEvent(owner: TypeInfo, row: EventRow) returns (r: Result<EventInfo, Exception>)
      requires Ready()
      modifies registry
      ensures Ready() && Grows()
      ensures r.Ok? ==> fresh(r.value) && EventFrom(r.value, row, owner) && ResolvedAs(row.eventType, r.value.eventHandlerType)
    {
      var t := Resolve(row.eventType);
      if t.Err? {
        return Err(t.error);
      }
      var cas := ParseCustomAttributes(row.customAttributes);
      if cas.Err? {
        return Err(cas.error);
      }
      var e := new EventInfo(Some(row.name), owner, t.value);
      e.customAttributes := Some(cas.value);
      r := Ok(e);
    }

    /** The part of ParseField before IsEnum: the field type, the node and the custom attributes. */
    method ParseFieldHeader(owner: TypeInfo, row: FieldRow, ghost view: EnumView) returns (r: Result<FieldInfo, Exception>)
      requires Ready() && ArgumentsNamed(owner.genericArguments) && IsEnumView(view, owner, stack)
      modifies registry
      ensures Ready() && Grows() && IsEnumView(view, owner, stack)
      ensures r.Ok? ==> fresh(r.value) && FieldFrom(r.value, row, owner) && r.value.enumValue == NullValue
    {
      TypeContextNamed(owner);
      var t := DecodeOne(row.signature, TypeContext(owner));
      if t.Err? {
        return Err(t.error);
      }
      var cas := ParseCustomAttributes(row.customAttributes);
      if cas.Err? {
        return Err(cas.error);
      }
      var f := new FieldInfo(Some(row.name), owner, t.value, row.attributes);
      f.customAttributes := Some(cas.value);
      r := Ok(f);
    }

    /**
     * ParseField: backing fields give null. Otherwise the field type decoded
     * in the context of the declaring type, the custom attributes, and, when
     * the declaring type is an enum, the row's constant as the enum value.
     * IsEnum is read after the other steps; view records what it reads, and
     * none of the steps changes that.
     */
    method ParseField(owner: TypeInfo, row: FieldRow, ghost view: EnumView) returns (r: Result<Option<FieldInfo>, Exception>)
      requires Ready() && ArgumentsNamed(owner.genericArguments) && IsEnumView(view, owner, stack)
      modifies registry
      ensures Ready() && Grows() && ArgumentsNamed(owner.genericArguments) && IsEnumView(view, owner, stack)
      ensures IsBackingField(row.name) <==> r == Ok(None)
      ensures !IsBackingField(row.name) && EnumFromView(view, stack).Err? ==> r.Err?
      ensures r.Ok? && r.value.Some? ==>
        (fresh(r.value.value) && EnumFromView(view, stack).Ok?
         && FieldWithValue(r.value.value, row, owner, EnumFromView(view, stack).value))
    {
      if IsBackingField(row.name) {
        return Ok(None);
      }
      var h := ParseFieldHeader(owner, row, view);
      EnumViewAgrees(view, owner, stack);
      if h.Err? {
        return Err(h.error);
      }
      var f := h.value;
      var isEnum := IsEnumWithin(owner, stack);
      assert isEnum == EnumFromView(view, stack);
      if isEnum.Err? {
        return Err(isEnum.error);
      }
      if isEnum.value && GetConstant(row.defaultValue).Err? {
        return Err(GetConstant(row.defaultValue).error);
      }
      f.enumValue := EnumValueOf(row, isEnum.value);
      r := Ok(Some(f));
    }
    /** The properties of a type, parsed in row order. */
    method ParseProperties(owner: TypeInfo, rows: seq<PropertyRow>) returns (r: Result<seq<PropertyInfo>, Exception>)
      requires Ready() && ArgumentsNamed(owner.genericArguments)
      modifies registry
      ensures Ready() && Grows() && ArgumentsNamed(owner.genericArguments)
      ensures r.Ok? ==> |r.value| == |rows|
      ensures r.Ok? ==> forall i :: 0 <= i < |rows| ==> fresh(r.value[i]) && PropertyFrom(r.value[i], rows[i], owner)
    {
      var out: seq<PropertyInfo> := [];
      var i := 0;
      while i < |rows|
        invariant 0 <= i <= |rows| && |out| == i
        invariant Ready() && Grows() && ArgumentsNamed(owner.genericArguments)
        invariant forall j :: 0 <= j < i ==> fresh(out[j]) && PropertyFrom(out[j], rows[j], owner)
      {
        var p := ParseProperty(owner, rows[i]);
        if p.Err? {
          return Err(p.error);
        }
        out := out + [p.value];
        i := i + 1;
      }
      r := Ok(out);
    }

    /** The events of a type, parsed in row order. */
    method ParseEvents(owner: TypeInfo, rows: seq<EventRow>) returns (r: Result<seq<EventInfo>, Exception>)
      requires Ready()
      modifies registry
      ensures Ready() && Grows()
      ensures r.Ok? ==> |r.value| == |rows|
      ensures r.Ok? ==> forall i :: 0 <= i < |rows| ==>
        fresh(r.value[i]) && EventFrom(r.value[i], rows[i], owner) && ResolvedAs(rows[i].eventType, r.value[i].eventHandlerType)
    {
      var out: seq<EventInfo> := [];
      var i := 0;
      while i < |rows|
        invariant 0 <= i <= |rows| && |out| == i
        invariant Ready() && Grows()
        invariant forall j :: 0 <= j < i ==>
          fresh(out[j]) && EventFrom(out[j], rows[j], owner) && ResolvedAs(rows[j].eventType, out[j].eventHandlerType)
      {
        var e := ParseEvent(owner, rows[i]);
        if e.Err? {
          return Err(e.error);
        }
        out := out + [e.value];
        i := i + 1;
      }
      r := Ok(out);
    }
    /**
     * The nested types of a type: the nested TypeDef rows whose names are
     * not compiler generated, resolved in row order. A row outside the
     * TypeDef table is a BadImageFormatException. The rows are all read
     * before the first is resolved; the source interleaves the two, which
     * differs only in the cache entries made before that exception.
     */
    method ParseNestedTypes(rows: seq<nat>) returns (r: Result<seq<TypeInfo?>, Exception>)
      requires Ready()
      modifies registry
      ensures Ready() && Grows()
      ensures r.Err? <==> exists i :: 0 <= i < |rows| && TypeDefinitionAt(registry.reader, rows[i]).Err?
      ensures r.Err? ==> r.error == BadImageFormat
      ensures r.Ok? ==> |r.value| == |VisibleNested(registry.reader, rows)|
      ensures r.Ok? ==> forall i :: 0 <= i < |r.value| ==>
        ResolvedAs(Handle(TypeDefinitionKind, VisibleNested(registry.reader, rows)[i]), r.value[i])
    {
      if exists i :: 0 <= i < |rows| && TypeDefinitionAt(registry.reader, rows[i]).Err? {
        return Err(BadImageFormat);
      }
      var kept := VisibleNested(registry.reader, rows);
      forall i | 0 <= i < |kept|
        ensures kept[i] >= 1
      {
        FilterMembers(rows, n => IsVisibleNested(registry.reader, n), kept[i]);
      }
      r := ResolveAll(seq(|kept|, i requires 0 <= i < |kept| => Handle(TypeDefinitionKind, kept[i])));
    }
    /**
     * One MethodDef row as the methods loop of ParseTypeMembers takes it:
     * null for a dropped name, a constructor node copied from the parsed
     * method for ".ctor", the parsed method otherwise.
     */
    method ParseListedMethod(owner: TypeInfo, row: MethodRow) returns (r: Result<Option<MethodInfo>, Exception>)
      requires Ready() && ResolvableConstraints(row.genericParameters) && ArgumentsNamed(owner.genericArguments)
      modifies registry
      ensures Ready() && Grows()
      ensures IsDroppedMethodName(row.name) <==> r == Ok(None)
      ensures r.Ok? && r.value.Some? && IsListedMethod(row) ==> fresh(r.value.value) && MethodFrom(r.value.value, row, owner)
      ensures r.Ok? && r.value.Some? && IsListedConstructor(row) ==> fresh(r.value.value) && ConstructorFrom(r.value.value, row, owner)
      ensures r.Ok? && r.value.Some? ==> ListedFrom(r.value.value, row, owner)
    {
      r := ParseMethod(owner, row);
      if r.Ok? && r.value.Some? && r.value.value.name == Some(".ctor") {
        var m := r.value.value;
        var c := new MethodInfo(true, m.name, owner, m.attributes);
        c.parameters := m.parameters;
        c.customAttributes := m.customAttributes;
        r := Ok(Some(c));
      }
    }

    /**
     * The methods of a type, in row order, split into methods and constructor
     * nodes. The rows are all parsed before the split, which reads no state.
     */
    method ParseMethods(owner: TypeInfo, rows: seq<MethodRow>) returns (r: Result<MethodLists, Exception>)
      requires Ready() && ArgumentsNamed(owner.genericArguments)
      requires forall i :: 0 <= i < |rows| ==> ResolvableConstraints(rows[i].genericParameters)
      modifies registry
      ensures Ready() && Grows() && ArgumentsNamed(owner.genericArguments)
      ensures r.Ok? ==> var listed := Filter(rows, IsListedMethod);
        |r.value.methods| == |listed|
        && forall i :: 0 <= i < |listed| ==> ListedFrom(r.value.methods[i], listed[i], owner)
      ensures r.Ok? ==> var listed := Filter(rows, IsListedConstructor);
        |r.value.constructors| == |listed|
        && forall i :: 0 <= i < |listed| ==> ListedFrom(r.value.constructors[i], listed[i], owner)
    {
      var parsed := ParseMethodRows(owner, rows);
      if parsed.Err? {
        return Err(parsed.error);
      }
      var lists := SplitMethods(owner, rows, parsed.value);
      r := Ok(lists);
    }

    /** The methods loop of ParseTypeMembers: each row parsed in turn, None for a dropped name. */
    method ParseMethodRows(owner: TypeInfo, rows: seq<MethodRow>) returns (r: Result<seq<Option<MethodInfo>>, Exception>)
      requires Ready() && ArgumentsNamed(owner.genericArguments)
      requires forall i :: 0 <= i < |rows| ==> ResolvableConstraints(rows[i].genericParameters)
      modifies registry
      ensures Ready() && Grows() && ArgumentsNamed(owner.genericArguments)
      ensures r.Ok? ==> MethodsParsedFrom(rows, r.value, owner)
    {
      var parsed: seq<Option<MethodInfo>> := [];
      var i := 0;
      while i < |rows|
        invariant 0 <= i <= |rows|
        invariant Ready() && Grows() && ArgumentsNamed(owner.genericArguments)
        invariant MethodsParsedFrom(rows[..i], parsed, owner)
      {
        var m := ParseListedMethod(owner, rows[i]);
        if m.Err? {
          return Err(m.error);
        }
        MethodsParsedStep(rows[..i], parsed, owner, rows[i], m.value);
        assert rows[..i + 1] == rows[..i] + [rows[i]];
        parsed := parsed + [m.value];
        i := i + 1;
      }
      assert rows[..i] == rows;
      r := Ok(parsed);
    }
    /** Each Field row of a type parsed in turn; every parse reads IsEnum, which view records. */
    method ParseFieldRows(owner: TypeInfo, rows: seq<FieldRow>, ghost view: EnumView) returns (r: Result<seq<Option<FieldInfo>>, Exception>)
      requires Ready() && ArgumentsNamed(owner.genericArguments) && IsEnumView(view, owner, stack)
      modifies registry
      ensures Ready() && Grows() && ArgumentsNamed(owner.genericArguments) && IsEnumView(view, owner, stack)
      ensures (exists i :: 0 <= i < |rows| && !IsBackingField(rows[i].name)) && EnumFromView(view, stack).Err? ==> r.Err?
      ensures r.Ok? ==> FieldsParsedFrom(rows, r.value, owner, EnumFromView(view, stack) == Ok(true))
    {
      ghost var isEnum := EnumFromView(view, stack) == Ok(true);
      ghost var enumFails := EnumFromView(view, stack).Err?;
      var parsed: seq<Option<FieldInfo>> := [];
      var i := 0;
      while i < |rows|
        invariant 0 <= i <= |rows|
        invariant Ready() && Grows() && ArgumentsNamed(owner.genericArguments) && IsEnumView(view, owner, stack)
        invariant FieldsParsedFrom(rows[..i], parsed, owner, isEnum)
        invariant enumFails ==> forall j :: 0 <= j < i ==> IsBackingField(rows[j].name)
      {
        var f := ParseField(owner, rows[i], view);
        if f.Err? {
          return Err(f.error);
        }
        FieldsParsedStep(rows[..i], parsed, owner, isEnum, rows[i], f.value);
        assert rows[..i + 1] == rows[..i] + [rows[i]];
        parsed := parsed + [f.value];
        i := i + 1;
      }
      assert rows[..i] == rows;
      r := Ok(parsed);
    }

    /**
     * The fields of a type in row order, split into the listed fields and
     * the underlying type of an enum.
     */
    method ParseFields(owner: TypeInfo, rows: seq<FieldRow>, ghost view: EnumView) returns (r: Result<FieldLists, Exception>)
      requires Ready() && ArgumentsNamed(owner.genericArguments) && IsEnumView(view, owner, stack)
      modifies registry
      ensures Ready() && Grows() && ArgumentsNamed(owner.genericArguments) && IsEnumView(view, owner, stack)
      ensures (exists i :: 0 <= i < |rows| && !IsBackingField(rows[i].name)) && EnumFromView(view, stack).Err? ==> r.Err?
      ensures r.Ok? ==> var isEnum := EnumFromView(view, stack) == Ok(true);
        |r.value.fields| == |ListedFields(rows, isEnum)|
        && (forall k :: 0 <= k < |r.value.fields| ==> FieldWithValue(r.value.fields[k], ListedFields(rows, isEnum)[k], owner, isEnum))
        && (r.value.underlying.Some? <==> isEnum && exists j :: 0 <= j < |rows| && rows[j].name == "value__")
    {
      var parsed := ParseFieldRows(owner, rows, view);
      if parsed.Err? {
        return Err(parsed.error);
      }
      var isEnum := IsEnumWithin(owner, stack);
      EnumViewAgrees(view, owner, stack);
      var lists := SplitFields(owner, rows, parsed.value, isEnum == Ok(true));
      r := Ok(lists);
    }
    /**
     * The member lists of ParseTypeMembers, in its order: the interfaces
     * resolved, the properties, the nested types, the events, the methods and
     * constructors, and the fields with the underlying type of an enum.
     */
    method ParseMemberLists(owner: TypeInfo, def: TypeDefinitionRow) returns (r: Result<Members, Exception>)
      requires Ready() && ArgumentsNamed(owner.genericArguments)
      requires forall i :: 0 <= i < |def.methods| ==> ResolvableConstraints(def.methods[i].genericParameters)
      modifies registry
      ensures Ready() && Grows()
      ensures r.Ok? ==> |r.value.interfaces| == |def.interfaces| && |r.value.properties| == |def.properties|
      ensures r.Ok? ==> |r.value.nestedTypes| == |VisibleNested(registry.reader, def.nestedTypes)| && |r.value.events| == |def.events|
      ensures r.Ok? ==> |r.value.methods.methods| == |Filter(def.methods, IsListedMethod)|
      ensures r.Ok? ==> |r.value.methods.constructors| == |Filter(def.methods, IsListedConstructor)|
      ensures r.Ok? ==> FieldsListed(owner, def, r.value.fields)
      ensures r.Ok? ==> forall p :: p in r.value.properties ==> fresh(p) && p.declaringType == owner
      ensures r.Ok? ==> forall e :: e in r.value.events ==> fresh(e) && e.declaringType == owner
    {
      var interfaces := ResolveAll(def.interfaces);
      if interfaces.Err? {
        return Err(interfaces.error);
      }
      var properties := ParseProperties(owner, def.properties);
      if properties.Err? {
        return Err(properties.error);
      }
      var nested := ParseNestedTypes(def.nestedTypes);
      if nested.Err? {
        return Err(nested.error);
      }
      var events := ParseEvents(owner, def.events);
      if events.Err? {
        return Err(events.error);
      }
      var rest := ParseMethodsAndFields(owner, def);
      if rest.Err? {
        return Err(rest.error);
      }
      r := Ok(Members(interfaces.value, properties.value, nested.value, events.value, rest.value.0, rest.value.1));
    }

    /**
     * The fields of def as ParseTypeMembers lists them for owner: one per
     * listed row, with its value, and the underlying type exactly for an
     * enum with a value__ field.
     */
    ghost predicate FieldsListed(owner: TypeInfo, def: TypeDefinitionRow, fields: FieldLists)
      reads *
    {
      var isEnum := IsEnumWithin(owner, stack) == Ok(true);
      |fields.fields| == |ListedFields(def.fields, isEnum)|
      && (forall k :: 0 <= k < |fields.fields| ==>
            FieldWithValue(fields.fields[k], ListedFields(def.fields, isEnum)[k], owner, isEnum))
      && (fields.underlying.Some? <==> isEnum && exists j :: 0 <= j < |def.fields| && def.fields[j].name == "value__")
    }

    /** The last two lists of ParseTypeMembers: the methods and constructors, then the fields. */
    method ParseMethodsAndFields(owner: TypeInfo, def: TypeDefinitionRow) returns (r: Result<(MethodLists, FieldLists), Exception>)
      requires Ready() && ArgumentsNamed(owner.genericArguments)
      requires forall i :: 0 <= i < |def.methods| ==> ResolvableConstraints(def.methods[i].genericParameters)
      modifies registry
      ensures Ready() && Grows()
      ensures r.Ok? ==> |r.value.0.methods| == |Filter(def.methods, IsListedMethod)|
      ensures r.Ok? ==> |r.value.0.constructors| == |Filter(def.methods, IsListedConstructor)|
      ensures r.Ok? ==> FieldsListed(owner, def, r.value.1)
    {
      var methods := ParseMethods(owner, def.methods);
      if methods.Err? {
        return Err(methods.error);
      }
      ghost var view := EnumViewOf(owner, stack);
      EnumViewOfIsView(owner, stack);
      var fields := ParseFields(owner, def.fields, view);
      if fields.Err? {
        return Err(fields.error);
      }
      EnumViewAgrees(view, owner, stack);
      r := Ok((methods.value, fields.value));
    }

    /**
     * ParseTypeMembers: the member lists parsed, then appended to the lists
     * of the type; an enum's value__ field gives its underlying type. The
     * source appends each list as soon as it is parsed; nothing in between
     * reads those lists.
     */
    method ParseTypeMembers(owner: TypeInfo, def: TypeDefinitionRow) returns (r: Result<Members, Exception>)
      requires Ready() && ModuleKept() && ArgumentsNamed(owner.genericArguments)
      requires forall i :: 0 <= i < |def.methods| ==> ResolvableConstraints(def.methods[i].genericParameters)
      modifies registry, owner
      ensures Ready() && Grows() && ModuleKept()
      ensures SameHeader(owner, old(Header(owner)))
      ensures r.Err? ==> unchanged(owner)
      ensures r.Ok? ==> Appended(owner, old(MemberLists(owner)), r.value)
      ensures r.Ok? ==> forall p :: p in r.value.properties ==> fresh(p)
      ensures r.Ok? ==> forall e :: e in r.value.events ==> fresh(e)
    {
      r := ParseMemberLists(owner, def);
      if r.Err? {
        return;
      }
      ghost var before := owner.OwnsMembers();
      AddMembers(owner, r.value);
      assert before ==> owner.OwnsMembers();
    }
    /** Each namespace handle resolved in turn: null for 0, the cached node otherwise. */
    ghost predicate NamespacesResolved(hs: seq<nat>, ns: seq<NamespaceInfo?>)
      reads registry
    {
      |ns| == |hs|
      && forall i :: 0 <= i < |hs| ==>
        (hs[i] == 0 ==> ns[i] == null) && (hs[i] != 0 ==> hs[i] in registry.namespaces && ns[i] == registry.namespaces[hs[i]])
    }

    /**
     * ns is what ParseNamespace makes of a namespace row: the parent, the
     * type definitions, the exported types and the child namespaces
     * resolved in row order, and the row's name.
     */
    ghost predicate NamespaceFrom(ns: NamespaceInfo, row: NamespaceRow)
      reads ns, registry
    {
      ns.name == Some(row.name)
      && NamespacesResolved([row.parent], [ns.parent])
      && ns.types.Some? && |ns.types.value| == |row.typeDefinitions|
      && (forall i :: 0 <= i < |row.typeDefinitions| ==>
            ResolvedAs(Handle(TypeDefinitionKind, row.typeDefinitions[i]), ns.types.value[i]))
      && ns.exportedTypes.Some? && |ns.exportedTypes.value| == |row.exportedTypes|
      && ns.namespaces.Some? && NamespacesResolved(row.namespaces, ns.namespaces.value)
    }

    /** The Select(ResolveNamespace) over child namespace handles. */
    method ResolveNamespaces(hs: seq<nat>) returns (r: seq<NamespaceInfo?>)
      requires Ready()
      modifies registry
      ensures Ready() && Grows() && registry.types == old(registry.types) && registry.typeReferences == old(registry.typeReferences)
      ensures NamespacesResolved(hs, r)
    {
      r := [];
      var i := 0;
      while i < |hs|
        invariant 0 <= i <= |hs|
        invariant Ready() && Grows() && registry.types == old(registry.types) && registry.typeReferences == old(registry.typeReferences)
        invariant NamespacesResolved(hs[..i], r)
      {
        var n := registry.ResolveNamespace(hs[i]);
        r := r + [n];
        i := i + 1;
      }
      assert hs[..i] == hs;
    }

    /** The handles of a list of TypeDef or ExportedType rows. */
    static function Handles(kind: HandleKind, rows: seq<nat>): (r: seq<Handle>)
      ensures |r| == |rows| && forall i :: 0 <= i < |rows| ==> r[i] == Handle(kind, rows[i])
    {
      seq(|rows|, i requires 0 <= i < |rows| => Handle(kind, rows[i]))
    }

    /**
     * The second half of ParseNamespace: the node filled from its row. The
     * types and exported types are resolved before the parent namespace;
     * resolving types never touches the namespace cache, so the cache ends
     * up the same.
     */
    method FillNamespace(ns: NamespaceInfo, row: NamespaceRow) returns (r: Result<(), Exception>)
      requires Ready()
      modifies registry, ns
      ensures Ready() && Grows() && SubMap(old(registry.namespaces), registry.namespaces)
      ensures r.Ok? ==> NamespaceFrom(ns, row)
    {
      var types := ResolveAll(Handles(TypeDefinitionKind, row.typeDefinitions));
      if types.Err? {
        return Err(types.error);
      }
      var exported := ResolveAll(Handles(ExportedTypeKind, row.exportedTypes));
      if exported.Err? {
        return Err(exported.error);
      }
      var parent := ResolveNamespaces([row.parent]);
      var children := ResolveNamespaces(row.namespaces);
      ns.parent, ns.types, ns.exportedTypes, ns.namespaces, ns.name :=
        parent[0], Some(types.value), Some(exported.value), Some(children), Some(row.name);
      r := Ok(());
    }
    /** The namespace under h has been parsed: its types list is set. */
    ghost predicate NamespaceParsed(h: nat)
      reads registry, registry.namespaces.Values
    {
      h in registry.namespaces && registry.namespaces[h].types.Some?
    }

    /**
     * ParseNamespace: nothing for the nil handle or a namespace parsed
     * before; otherwise the node is filled from its row, a missing row being
     * a malformed image.
     */
    method ParseNamespace(h: nat) returns (r: Result<(), Exception>)
      requires Ready()
      modifies registry, registry.namespaces.Values
      ensures Ready() && Grows()
      ensures old(ModuleKept()) ==> ModuleKept()
      ensures h == 0 || old(NamespaceParsed(h)) ==> r.Ok? && unchanged(registry) && unchanged(registry.namespaces.Values)
      ensures h != 0 ==> h in registry.namespaces
      ensures h != 0 && h !in registry.reader.namespaceDefinitions && !old(NamespaceParsed(h)) ==> r == Err(BadImageFormat)
      ensures h != 0 && r.Ok? ==> NamespaceParsed(h)
      ensures h != 0 && r.Ok? && !old(NamespaceParsed(h))
        ==> h in registry.reader.namespaceDefinitions && NamespaceFrom(registry.namespaces[h], registry.reader.namespaceDefinitions[h])
      ensures h != 0 ==>
        (forall k :: k in old(registry.namespaces) && old(registry.namespaces[k]) != registry.namespaces[h]
           ==> unchanged(old(registry.namespaces[k])))
    {
      var ns := registry.ResolveNamespace(h);
      r := ParseNamespaceNode(h, ns);
    }

    /** ParseNamespace past the lookup of its node. */
    method ParseNamespaceNode(h: nat, ns: NamespaceInfo?) returns (r: Result<(), Exception>)
      requires Ready()
      modifies registry, ns
      ensures Ready() && Grows() && SubMap(old(registry.namespaces), registry.namespaces)
      ensures old(ModuleKept()) ==> ModuleKept()
      ensures ns == null || old(ns.types).Some? ==> r.Ok? && unchanged(registry) && (ns != null ==> unchanged(ns))
      ensures ns != null && old(ns.types).None? && h !in registry.reader.namespaceDefinitions ==> r == Err(BadImageFormat)
      ensures ns != null && r.Ok? ==> ns.types.Some?
      ensures ns != null && r.Ok? && old(ns.types).None?
        ==> h in registry.reader.namespaceDefinitions && NamespaceFrom(ns, registry.reader.namespaceDefinitions[h])
    {
      if ns == null || ns.types.Some? {
        return Ok(());
      }
      if h !in registry.reader.namespaceDefinitions {
        return Err(BadImageFormat);
      }
      r := FillNamespace(ns, registry.reader.namespaceDefinitions[h]);
    }

    /**
     * The module node, once built, is named after the module with its
     * attributes parsed, and its assembly, once attached, is named after
     * the assembly, points back to the module and has its attributes parsed.
     */
    ghost predicate ModuleKept()
      reads this`moduleInfo, moduleInfo, if moduleInfo != null && moduleInfo.assembly != null then {moduleInfo.assembly} else {}
    {
      moduleInfo != null ==>
        (moduleInfo.name == registry.reader.moduleName && moduleInfo.customAttributes.Some?
         && (moduleInfo.assembly != null ==>
               (moduleInfo.assembly.name == registry.reader.assemblyName && moduleInfo.assembly.moduleInfo == moduleInfo
                && moduleInfo.assembly.customAttributes.Some?)))
    }

    /**
     * ParseModule: the memoised module node. Built once, from the module
     * name and attributes, then given an assembly node built from the
     * assembly name and attributes. An exception while parsing the assembly
     * attributes leaves the module memoised without an assembly.
     */
    method ParseModule() returns (r: Result<ModuleInfo, Exception>)
      requires Ready() && ModuleKept()
      modifies this, registry
      ensures Ready() && Grows() && ModuleKept() && SubMap(old(registry.namespaces), registry.namespaces)
      ensures didParse == old(didParse)
      ensures old(moduleInfo) != null ==> r.Ok? && r.value == old(moduleInfo) && moduleInfo == old(moduleInfo) && unchanged(registry)
      ensures r.Ok? ==> moduleInfo == r.value
      ensures old(moduleInfo) == null && r.Ok? ==> fresh(r.value) && r.value.assembly != null && fresh(r.value.assembly)
      ensures old(moduleInfo) == null && r.Err? ==> moduleInfo == null || (fresh(moduleInfo) && moduleInfo.assembly == null)
    {
      if moduleInfo != null {
        return Ok(moduleInfo);
      }
      var attributes := ParseCustomAttributes(registry.reader.moduleAttributes);
      if attributes.Err? {
        return Err(attributes.error);
      }
      var m := new ModuleInfo(registry.reader.moduleName);
      m.customAttributes := Some(attributes.value);
      moduleInfo := m;
      var assemblyAttributes := ParseCustomAttributes(registry.reader.assemblyAttributes);
      if assemblyAttributes.Err? {
        return Err(assemblyAttributes.error);
      }
      var a := new AssemblyInfo(registry.reader.assemblyName);
      a.customAttributes := Some(assemblyAttributes.value);
      a.moduleInfo := m;
      m.assembly := a;
      r := Ok(m);
    }

    /** ParseAssembly: the assembly of the memoised module. */
    method ParseAssembly() returns (r: Result<AssemblyInfo?, Exception>)
      requires Ready() && ModuleKept()
      modifies this, registry
      ensures Ready() && Grows() && ModuleKept() && SubMap(old(registry.namespaces), registry.namespaces)
      ensures didParse == old(didParse)
      ensures r.Ok? ==> moduleInfo != null && r.value == moduleInfo.assembly
      ensures old(moduleInfo) != null ==> r == Ok(old(moduleInfo.assembly)) && moduleInfo == old(moduleInfo) && unchanged(registry)
      ensures old(moduleInfo) == null && r.Ok? ==> r.value != null
    {
      var m := ParseModule();
      if m.Err? {
        return Err(m.error);
      }
      r := Ok(m.value.assembly);
    }
    /** The links of a TypeDef row: declaring type, generic parameters (as type parameters) and base type. */
    method ParseTypeLinks(def: TypeDefinitionRow) returns (r: Result<TypeLinks, Exception>)
      requires Ready() && ResolvableConstraints(def.genericParameters)
      modifies registry
      ensures Ready() && Grows()
      ensures r.Ok? ==> ResolvedAs(def.declaringType, r.value.declaringType) && ResolvedAs(def.baseType, r.value.baseType)
      ensures r.Ok? ==> (r.value.genericArguments.None? <==> def.genericParameters == [])
      ensures r.Ok? && r.value.genericArguments.Some? ==>
        (|r.value.genericArguments.value| == |def.genericParameters|
         && forall i :: 0 <= i < |def.genericParameters| ==>
              fresh(r.value.genericArguments.value[i])
              && DeclaredParameter(r.value.genericArguments.value[i], def.genericParameters[i], false))
      ensures r.Ok? ==> ArgumentsNamed(r.value.genericArguments)
    {
      var declaringType := Resolve(def.declaringType);
      if declaringType.Err? {
        return Err(declaringType.error);
      }
      var arguments := ParseGenericArguments(def.genericParameters, false);
      if arguments.Err? {
        return Err(arguments.error);
      }
      var baseType := Resolve(def.baseType);
      if baseType.Err? {
        return Err(baseType.error);
      }
      r := Ok(TypeLinks(declaringType.value, arguments.value, baseType.value));
    }

    /** The attributes of a TypeDef row, then the memoised assembly and module. */
    method ParseTypeOrigin(def: TypeDefinitionRow) returns (r: Result<TypeOrigin, Exception>)
      requires Ready() && ModuleKept()
      modifies this, registry
      ensures Ready() && Grows() && ModuleKept() && didParse == old(didParse)
      ensures r.Ok? ==> moduleInfo == r.value.moduleInfo && r.value.assembly == moduleInfo.assembly
      ensures r.Ok? && r.value.customAttributes != [] ==>
        (|r.value.customAttributes| == |def.customAttributes|
         && forall i :: 0 <= i < |def.customAttributes| ==> AttributeFrom(def.customAttributes[i], r.value.customAttributes[i]))
    {
      var attributes := ParseCustomAttributes(def.customAttributes);
      if attributes.Err? {
        return Err(attributes.error);
      }
      var assembly := ParseAssembly();
      if assembly.Err? {
        return Err(assembly.error);
      }
      var m := ParseModule();
      r := Ok(TypeOrigin(attributes.value, assembly.value, m.value));
    }

    /** The header ParseType gives the node of a TypeDef row. */
    ghost predicate HeaderFrom(t: TypeInfo, def: TypeDefinitionRow)
      reads t, registry
    {
      t.baseName == Some(StripArity(def.name)) && t.ns == Some(def.ns) && t.attributes == def.attributes
      && ResolvedAs(def.declaringType, t.declaringType) && ResolvedAs(def.baseType, t.baseType)
      && (t.genericArguments.None? <==> def.genericParameters == [])
      && (t.genericArguments.Some? ==> |t.genericArguments.value| == |def.genericParameters|)
      && t.isGenericTypeDefinition == (def.genericParameters != [])
      && t.customAttributes.Some?
    }

    /** What ParseType stores in a header, as it came from the row. */
    ghost predicate FieldsFrom(f: HeaderFields, def: TypeDefinitionRow)
      reads registry
    {
      f.baseName == StripArity(def.name) && f.ns == def.ns && f.attributes == def.attributes
      && ResolvedAs(def.declaringType, f.declaringType) && ResolvedAs(def.baseType, f.baseType)
      && (f.genericArguments.None? <==> def.genericParameters == [])
      && (f.genericArguments.Some? ==> |f.genericArguments.value| == |def.genericParameters|)
    }

    /**
     * The values ParseType stores in the node of a TypeDef row: the links,
     * the attributes, the assembly and the module. Computing them never
     * reads the node.
     */
    method ParseTypeFields(def: TypeDefinitionRow) returns (r: Result<HeaderFields, Exception>)
      requires Ready() && ModuleKept() && ResolvableConstraints(def.genericParameters)
      modifies this, registry
      ensures Ready() && Grows() && ModuleKept() && didParse == old(didParse)
      ensures r.Ok? ==> FieldsFrom(r.value, def) && ArgumentsNamed(r.value.genericArguments)
      ensures r.Ok? ==> moduleInfo != null && r.value.moduleInfo == moduleInfo && r.value.assembly == moduleInfo.assembly
      ensures r.Ok? && r.value.genericArguments.Some? ==>
        forall i :: 0 <= i < |r.value.genericArguments.value| ==>
          fresh(r.value.genericArguments.value[i]) && r.value.genericArguments.value[i].elementType == null
    {
      var links := ParseTypeLinks(def);
      if links.Err? {
        return Err(links.error);
      }
      var origin := ParseTypeOrigin(def);
      if origin.Err? {
        return Err(origin.error);
      }
      r := Ok(HeaderFields(StripArity(def.name), def.ns, def.attributes,
        links.value.declaringType, links.value.genericArguments, links.value.baseType,
        origin.value.customAttributes, origin.value.assembly, origin.value.moduleInfo));
    }

    /** The header fields f, as they came from the row def, stored in the cached definition node t; the registry stays consistent. */
    method StoreHeader(t: TypeInfo, f: HeaderFields, ghost h: Handle, ghost def: TypeDefinitionRow)
      requires Ready() && h in registry.types && registry.types[h] == t && FieldsFrom(f, def)
      modifies t
      ensures Ready()
      ensures Header(t) == WithFields(old(Header(t)), f) && MemberLists(t) == old(MemberLists(t))
      ensures HeaderFrom(t, def)
    {
      SetHeader(t, f);
    }

    /** The first half of ParseType: the node of the row resolved and its header set. */
    method ParseTypeHeader(h: Handle, def: TypeDefinitionRow) returns (r: Result<TypeInfo, Exception>)
      requires Ready() && ModuleKept() && ResolvableConstraints(def.genericParameters)
      requires h.kind == TypeDefinitionKind && !h.IsNil()
      modifies this, registry, registry.types.Values
      ensures Ready() && Grows() && ModuleKept() && didParse == old(didParse)
      ensures h in registry.types
      ensures r.Ok? && h in old(registry.types) ==> r.value == old(registry.types[h])
      ensures r.Ok? && h !in old(registry.types) ==> fresh(r.value)
      ensures r.Ok? ==> r.value == registry.types[h] && HeaderFrom(r.value, def) && ArgumentsNamed(r.value.genericArguments)
      ensures r.Ok? ==> moduleInfo != null && r.value.moduleInfo == moduleInfo && r.value.assembly == moduleInfo.assembly
      ensures forall k :: k in old(registry.types) && old(registry.types[k]) != registry.types[h] ==> unchanged(old(registry.types[k]))
      ensures h in old(registry.types) ==> MemberLists(registry.types[h]) == old(MemberLists(registry.types[h]))
    {
      var t := Resolve(h);
      r := FillHeader(t.value, h, def);
    }

    /** The header of the cached node t of the row def: its fields parsed, then stored in t. */
    method FillHeader(t: TypeInfo, h: Handle, def: TypeDefinitionRow) returns (r: Result<TypeInfo, Exception>)
      requires Ready() && ModuleKept() && ResolvableConstraints(def.genericParameters)
      requires h in registry.types && registry.types[h] == t
      modifies this, registry, t
      ensures Ready() && Grows() && ModuleKept() && didParse == old(didParse)
      ensures h in registry.types && registry.types[h] == t
      ensures r.Ok? ==> r.value == t && HeaderFrom(t, def) && ArgumentsNamed(t.genericArguments)
      ensures r.Ok? ==> moduleInfo != null && t.moduleInfo == moduleInfo && t.assembly == moduleInfo.assembly
      ensures MemberLists(t) == old(MemberLists(t))
    {
      var f := ParseTypeFields(def);
      if f.Err? {
        return Err(f.error);
      }
      StoreHeader(t, f.value, h, def);
      r := Ok(t);
    }
    /**
     * The part of ParseType that fills the node of a TypeDef row: its header
     * is set and its members are parsed and appended to it. Only that node
     * changes among the type nodes, and the namespace cache is left alone.
     */
    method ParseDefinedType(row: nat) returns (r: Result<(), Exception>)
      requires Ready() && ModuleKept() && ConstraintsResolvable(registry.reader)
      requires 1 <= row <= |registry.reader.typeDefinitions|
      modifies this, registry, registry.types.Values
      ensures Ready() && Grows() && ModuleKept() && didParse == old(didParse)
      ensures Handle(TypeDefinitionKind, row) in registry.types
      ensures var t := registry.types[Handle(TypeDefinitionKind, row)];
        r.Ok? ==> HeaderFrom(t, registry.reader.typeDefinitions[row - 1]) && moduleInfo != null && t.moduleInfo == moduleInfo
      ensures var t := registry.types[Handle(TypeDefinitionKind, row)];
        forall k :: k in old(registry.types) && old(registry.types[k]) != t ==> unchanged(old(registry.types[k]))
    {
      var h := Handle(TypeDefinitionKind, row);
      var def := registry.reader.typeDefinitions[row - 1];
      var node := ParseTypeHeader(h, def);
      if node.Err? {
        return Err(node.error);
      }
      var members := ParseTypeMembers(node.value, def);
      if members.Err? {
        return Err(members.error);
      }
      r := Ok(());
    }

    /**
     * ParseType: a generated name is skipped before anything is resolved;
     * otherwise the node of the row gets its header, its members are parsed
     * and appended to it (ParseDefinedType states that no other type node
     * changes), and then its namespace is parsed.
     */
    method ParseType(row: nat) returns (r: Result<(), Exception>)
      requires Ready() && ModuleKept() && ConstraintsResolvable(registry.reader)
      requires 1 <= row <= |registry.reader.typeDefinitions|
      modifies this, registry, registry.types.Values, registry.namespaces.Values
      ensures Ready() && Grows() && ModuleKept() && didParse == old(didParse)
      ensures var def := registry.reader.typeDefinitions[row - 1];
        IsGeneratedTypeName(def.name) ==> r.Ok? && unchanged(this, registry)
      ensures var def := registry.reader.typeDefinitions[row - 1]; var h := Handle(TypeDefinitionKind, row);
        r.Ok? && !IsGeneratedTypeName(def.name) ==>
          (h in registry.types && HeaderFrom(registry.types[h], def)
           && moduleInfo != null && registry.types[h].moduleInfo == moduleInfo)
    {
      var h := Handle(TypeDefinitionKind, row);
      var def := registry.reader.typeDefinitions[row - 1];
      if IsGeneratedTypeName(def.name) {
        return Ok(());
      }
      r := ParseDefinedType(row);
      if r.Err? {
        return;
      }
      r := ParseNamespace(def.namespaceDefinition);
    }

    /**
     * The first loop of Parse: every TypeDef row in order goes through
     * ParseType, stopping at the first that throws. Every row whose name is
     * not generated then has a node; with every row generated the module is
     * still the one there was before.
     */
    method ParseTypes() returns (r: Result<(), Exception>)
      requires Ready() && ModuleKept() && ConstraintsResolvable(registry.reader)
      modifies this, registry, registry.types.Values, registry.namespaces.Values
      ensures Ready() && Grows() && ModuleKept() && didParse == old(didParse)
      ensures r.Ok? ==> forall row :: 1 <= row <= |registry.reader.typeDefinitions| ==>
        (!IsGeneratedTypeName(registry.reader.typeDefinitions[row - 1].name) ==> Handle(TypeDefinitionKind, row) in registry.types)
      ensures (forall k :: 0 <= k < |registry.reader.typeDefinitions| ==> IsGeneratedTypeName(registry.reader.typeDefinitions[k].name))
        ==> r.Ok? && moduleInfo == old(moduleInfo)
    {
      var defs := registry.reader.typeDefinitions;
      var row := 1;
      while row <= |defs|
        invariant 1 <= row <= |defs| + 1
        invariant Ready() && Grows() && ModuleKept() && didParse == old(didParse)
        invariant forall k :: 1 <= k < row && !IsGeneratedTypeName(defs[k - 1].name) ==>
          Handle(TypeDefinitionKind, k) in registry.types
        invariant (forall k :: 0 <= k < row - 1 ==> IsGeneratedTypeName(defs[k].name)) ==> moduleInfo == old(moduleInfo)
      {
        var step := ParseType(row);
        if step.Err? {
          return Err(step.error);
        }
        row := row + 1;
      }
      r := Ok(());
    }

    /** The passes of MoveAccessors, on the definition nodes in the order they were first cached. */
    method RunPasses(same: (TypeInfo, TypeInfo) -> bool)
      returns (r: Result<(), Exception>, ghost ins: seq<Accessors.PassInputs>,
               ghost ps: seq<Accessors.PropertyState>, ghost es: seq<Accessors.EventState>)
      requires Ready()
      modifies registry.types.Values`methods
      modifies (iset p: PropertyInfo | p.declaringType in registry.types.Values)`getMethod
      modifies (iset p: PropertyInfo | p.declaringType in registry.types.Values)`setMethod
      modifies (iset p: PropertyInfo | p.declaringType in registry.types.Values)`indexParameters
      modifies (iset e: EventInfo | e.declaringType in registry.types.Values)`addMethod
      modifies (iset e: EventInfo | e.declaringType in registry.types.Values)`removeMethod
      ensures old(allocated(ins)) && old(Accessors.AllInputsAre(ins, registry.Types()))
      ensures r.Err? ==> r.error == NullReference
      ensures r.Ok? ==> Accessors.PassesDone(registry.Types(), ins, ps, es, same)
    {
      var ts := registry.Types();
      assert forall i :: 0 <= i < |ts| ==> ts[i] in registry.types.Values && ts[i].OwnsMembers();
      r, ins, ps, es := Accessors.RunAccessorPasses(ts, same);
    }

    /**
     * The second loop of Parse: for every definition node in the order it
     * was first cached, the property pass and then the event pass, the first
     * pass that throws ending the loop. Every property and event of a node
     * is declared by it, so only the nodes' method lists and the accessors
     * of their properties and events change.
     */
    method MoveAccessors(same: (TypeInfo, TypeInfo) -> bool)
      returns (r: Result<(), Exception>, ghost ins: seq<Accessors.PassInputs>,
               ghost ps: seq<Accessors.PropertyState>, ghost es: seq<Accessors.EventState>)
      requires Ready()
      modifies registry.types.Values`methods
      modifies (iset p: PropertyInfo | p.declaringType in registry.types.Values)`getMethod
      modifies (iset p: PropertyInfo | p.declaringType in registry.types.Values)`setMethod
      modifies (iset p: PropertyInfo | p.declaringType in registry.types.Values)`indexParameters
      modifies (iset e: EventInfo | e.declaringType in registry.types.Values)`addMethod
      modifies (iset e: EventInfo | e.declaringType in registry.types.Values)`removeMethod
      ensures Ready()
      ensures old(allocated(ins)) && old(Accessors.AllInputsAre(ins, registry.Types()))
      ensures r.Err? ==> r.error == NullReference
      ensures r.Ok? ==> Accessors.PassesDone(registry.Types(), ins, ps, es, same)
    {
      r, ins, ps, es := RunPasses(same);
    }

    /**
     * The two loops of Parse: ParseTypes, then, when it returns, MoveAccessors,
     * a pass that throws giving NullReference.
     */
    method ParseAll(same: (TypeInfo, TypeInfo) -> bool)
      returns (r: Result<(), Exception>, ghost ins: seq<Accessors.PassInputs>,
               ghost ps: seq<Accessors.PropertyState>, ghost es: seq<Accessors.EventState>)
      requires Ready() && ModuleKept() && ConstraintsResolvable(registry.reader)
      modifies this, registry, registry.types.Values, registry.namespaces.Values
      modifies (iset p: PropertyInfo | p.declaringType in registry.types.Values)`getMethod
      modifies (iset p: PropertyInfo | p.declaringType in registry.types.Values)`setMethod
      modifies (iset p: PropertyInfo | p.declaringType in registry.types.Values)`indexParameters
      modifies (iset e: EventInfo | e.declaringType in registry.types.Values)`addMethod
      modifies (iset e: EventInfo | e.declaringType in registry.types.Values)`removeMethod
      ensures Ready() && Grows() && ModuleKept() && didParse == old(didParse)
      ensures r.Ok? ==> forall row :: 1 <= row <= |registry.reader.typeDefinitions| ==>
        (!IsGeneratedTypeName(registry.reader.typeDefinitions[row - 1].name) ==> Handle(TypeDefinitionKind, row) in registry.types)
      ensures (forall k :: 0 <= k < |registry.reader.typeDefinitions| ==> IsGeneratedTypeName(registry.reader.typeDefinitions[k].name))
        ==> (r.Ok? || r == Err(NullReference)) && moduleInfo == old(moduleInfo)
      ensures r.Ok? ==> Accessors.PassesDone(registry.Types(), ins, ps, es, same)
    {
      ins, ps, es := [], [], [];
      r := ParseTypes();
      if r.Err? {
        return;
      }
      r, ins, ps, es := MoveAccessors(same);
    }

    /**
     * Parse: refuses a second run; otherwise ParseTypes, then for every
     * definition node in the order it was first cached the property pass and
     * the event pass of the Accessors module, which move accessor methods
     * out of the node's method list into its properties and events. A pass
     * that throws ends Parse before it is marked done. Parse is then marked
     * done, and the result holds the module, its assembly, and the
     * registry's namespaces and definition nodes. With no row parsed the
     * module is still unknown and reading its assembly throws, after the
     * mark.
     */
    method Parse(same: (TypeInfo, TypeInfo) -> bool)
      returns (r: Result<ParsedAssembly, Exception>, ghost ins: seq<Accessors.PassInputs>,
               ghost ps: seq<Accessors.PropertyState>, ghost es: seq<Accessors.EventState>)
      requires Ready() && ModuleKept() && ConstraintsResolvable(registry.reader)
      modifies this, registry, registry.types.Values, registry.namespaces.Values
      modifies (iset p: PropertyInfo | p.declaringType in registry.types.Values)`getMethod
      modifies (iset p: PropertyInfo | p.declaringType in registry.types.Values)`setMethod
      modifies (iset p: PropertyInfo | p.declaringType in registry.types.Values)`indexParameters
      modifies (iset e: EventInfo | e.declaringType in registry.types.Values)`addMethod
      modifies (iset e: EventInfo | e.declaringType in registry.types.Values)`removeMethod
      ensures old(didParse) ==> r == Err(InvalidOperation) && unchanged(this, registry) && didParse
      ensures !old(didParse) ==> Ready() && Grows() && ModuleKept()
      ensures r.Ok? ==> !old(didParse) && didParse && moduleInfo != null
      ensures r.Ok? ==>
        r.value == ParsedAssembly(moduleInfo.assembly, moduleInfo, registry.Namespaces(), registry.Types())
      ensures !old(didParse) && r.Err? && didParse ==> r.error == NullReference && moduleInfo == null
      ensures didParse && !old(didParse) ==> forall row :: 1 <= row <= |registry.reader.typeDefinitions| ==>
        (!IsGeneratedTypeName(registry.reader.typeDefinitions[row - 1].name) ==> Handle(TypeDefinitionKind, row) in registry.types)
      ensures didParse && !old(didParse) ==> Accessors.PassesDone(registry.Types(), ins, ps, es, same)
      ensures !old(didParse) && old(moduleInfo) == null
        && (forall k :: 0 <= k < |registry.reader.typeDefinitions| ==> IsGeneratedTypeName(registry.reader.typeDefinitions[k].name))
        ==> r == Err(NullReference)
    {
      ins, ps, es := [], [], [];
      if didParse {
        r := Err(InvalidOperation);
        return;
      }
      var parsed;
      parsed, ins, ps, es := ParseAll(same);
      if parsed.Err? {
        r := Err(parsed.error);
        return;
      }
      didParse := true;
      if moduleInfo == null {
        r := Err(NullReference);
        return;
      }
      r := Ok(ParsedAssembly(moduleInfo.assembly, moduleInfo, registry.Namespaces(), registry.Types()));
    }
  }
}
