/**
 * DocsInfoProvider: the registry that turns metadata handles into type and
 * namespace nodes. Definition, reference, assembly-reference and namespace
 * nodes are memoised per handle; a node is allocated and cached before the
 * extractor fills it, which is how cyclic type graphs are built. Type
 * specifications are decoded afresh on every resolution.
 */
module InfoProvider {
  import opened Wrappers
  import opened Reflection
  import opened SignatureTypes
  import opened Metadata

  /** Every entry of a is in b with the same value. */
  predicate SubMap<K, V(==)>(a: map<K, V>, b: map<K, V>)
  {
    forall k :: k in a ==> k in b && b[k] == a[k]
  }

  /** Every TypeSpec row a signature refers to is below the bound. */
  predicate SpecRefsBelow(sig: Sig, bound: nat)
  {
    match sig
    case ClassSig(h) => h.kind == TypeSpecificationKind ==> h.row < bound
    case SZArraySig(e) => SpecRefsBelow(e, bound)
    case PointerSig(e) => SpecRefsBelow(e, bound)
    case ByRefSig(e) => SpecRefsBelow(e, bound)
    case ArraySig(e, _) => SpecRefsBelow(e, bound)
    case PinnedSig(e) => SpecRefsBelow(e, bound)
    case GenericInstSig(o, args) => SpecRefsBelow(o, bound) && forall i :: 0 <= i < |args| ==> SpecRefsBelow(args[i], bound)
    case ModifiedSig(m, u, _) => SpecRefsBelow(m, bound) && SpecRefsBelow(u, bound)
    case _ => true
  }

  /** One more than the largest TypeSpec row a signature refers to. */
  function SpecBound(sig: Sig): nat
  {
    match sig
    case ClassSig(h) => if h.kind == TypeSpecificationKind then h.row + 1 else 0
    case SZArraySig(e) => SpecBound(e)
    case PointerSig(e) => SpecBound(e)
    case ByRefSig(e) => SpecBound(e)
    case ArraySig(e, _) => SpecBound(e)
    case PinnedSig(e) => SpecBound(e)
    case GenericInstSig(o, args) => Max(SpecBound(o), ListSpecBound(args))
    case ModifiedSig(m, u, _) => Max(SpecBound(m), SpecBound(u))
    case _ => 0
  }

  function ListSpecBound(args: seq<Sig>): nat
  {
    if args == [] then 0 else Max(SpecBound(args[0]), ListSpecBound(args[1..]))
  }

  function Max(a: nat, b: nat): nat
  {
    if a < b then b else a
  }

  /** A larger bound is still a bound. */
  lemma {:induction false} SpecRefsBelowMonotone(sig: Sig, b: nat, b': nat)
    requires SpecRefsBelow(sig, b) && b <= b'
    ensures SpecRefsBelow(sig, b')
  {
    match sig
    case SZArraySig(e) => SpecRefsBelowMonotone(e, b, b');
    case PointerSig(e) => SpecRefsBelowMonotone(e, b, b');
    case ByRefSig(e) => SpecRefsBelowMonotone(e, b, b');
    case ArraySig(e, _) => SpecRefsBelowMonotone(e, b, b');
    case PinnedSig(e) => SpecRefsBelowMonotone(e, b, b');
    case GenericInstSig(o, args) =>
      SpecRefsBelowMonotone(o, b, b');
      forall i | 0 <= i < |args|
        ensures SpecRefsBelow(args[i], b')
      {
        SpecRefsBelowMonotone(args[i], b, b');
      }
    case ModifiedSig(m, u, _) =>
      SpecRefsBelowMonotone(m, b, b');
      SpecRefsBelowMonotone(u, b, b');
    case _ =>
  }

  /** SpecBound bounds the TypeSpec rows of a signature. */
  lemma {:induction false} SpecBoundIsBound(sig: Sig)
    ensures SpecRefsBelow(sig, SpecBound(sig))
  {
    match sig
    case SZArraySig(e) => SpecBoundIsBound(e);
    case PointerSig(e) => SpecBoundIsBound(e);
    case ByRefSig(e) => SpecBoundIsBound(e);
    case ArraySig(e, _) => SpecBoundIsBound(e);
    case PinnedSig(e) => SpecBoundIsBound(e);
    case GenericInstSig(o, args) =>
      SpecBoundIsBound(o);
      SpecRefsBelowMonotone(o, SpecBound(o), SpecBound(sig));
      ListSpecBoundIsBound(args, SpecBound(sig));
    case ModifiedSig(m, u, _) =>
      SpecBoundIsBound(m);
      SpecBoundIsBound(u);
      SpecRefsBelowMonotone(m, SpecBound(m), SpecBound(sig));
      SpecRefsBelowMonotone(u, SpecBound(u), SpecBound(sig));
    case _ =>
  }

  lemma {:induction false} ListSpecBoundIsBound(args: seq<Sig>, b: nat)
    requires ListSpecBound(args) <= b
    ensures forall i :: 0 <= i < |args| ==> SpecRefsBelow(args[i], b)
    decreases args, 1
  {
    if args != [] {
      SpecBoundIsBound(args[0]);
      SpecRefsBelowMonotone(args[0], SpecBound(args[0]), b);
      ListSpecBoundIsBound(args[1..], b);
      forall i | 1 <= i < |args|
        ensures SpecRefsBelow(args[i], b)
      {
        assert args[i] == args[1..][i - 1];
      }
    }
  }

  /** A TypeSpec signature only refers to earlier TypeSpec rows, so decoding one ends. */
  predicate SpecsWellFounded(reader: Reader)
  {
    forall r :: r in reader.typeSpecifications ==> SpecRefsBelow(reader.typeSpecifications[r], r)
  }

  /** The reader premises the registry needs: Implementation and TypeSpec links descend. */
  predicate WellFormed(reader: Reader)
  {
    ExportsWellFounded(reader) && SpecsWellFounded(reader)
  }

  /** The objects the generic arguments of a list read for their names. */
  ghost function ArgumentsFootprint(args: Option<seq<TypeInfo>>): set<object>
    reads if args.Some? then set i | 0 <= i < |args.value| :: args.value[i] else {}
  {
    if args.None? then {}
    else
      (set i | 0 <= i < |args.value| :: args.value[i] as object)
      + (set i, o | 0 <= i < |args.value| && o in args.value[i].chain :: o as object)
  }

  /** Every generic argument of the list has a readable name. */
  ghost predicate ArgumentsNamed(args: Option<seq<TypeInfo>>)
    reads ArgumentsFootprint(args)
  {
    args.Some? ==> forall i :: 0 <= i < |args.value| ==> args.value[i].ElementRanked()
  }

  /** A generic context whose method and type arguments all have readable names. */
  ghost predicate ContextNamed(ctx: GenericContext)
    reads ContextFootprint(ctx), ArgumentsFootprint(MethodArguments(ctx)), ArgumentsFootprint(TypeArguments(ctx))
  {
    ArgumentsNamed(MethodArguments(ctx)) && ArgumentsNamed(TypeArguments(ctx))
  }

  class Registry {
    const reader: Reader
    /** The attributes of the host's runtime type for each primitive type code. */
    const hostAttributes: PrimitiveTypeCode -> bv32
    var types: map<Handle, TypeInfo>
    var typeOrder: seq<Handle>
    var typeReferences: map<Handle, TypeInfo>
    var asmReferences: map<Handle, AssemblyInfo>
    var namespaces: map<nat, NamespaceInfo>
    var namespaceOrder: seq<nat>

    constructor (reader: Reader, hostAttributes: PrimitiveTypeCode -> bv32)
      ensures this.reader == reader && this.hostAttributes == hostAttributes
      ensures types == map[] && typeReferences == map[] && asmReferences == map[] && namespaces == map[]
      ensures typeOrder == [] && namespaceOrder == []
      ensures Valid() && Plain()
    {
      this.reader := reader;
      this.hostAttributes := hostAttributes;
      types := map[];
      typeOrder := [];
      typeReferences := map[];
      asmReferences := map[];
      namespaces := map[];
      namespaceOrder := [];
    }

    /**
     * The caches hold what their names say: definition nodes under non-nil
     * TypeDefinition handles, reference nodes under non-nil TypeReference
     * handles, namespaces under non-nil handles; the two order lists hold
     * the cached handles in insertion order, Types lists distinct nodes, and
     * no node is both a definition and a reference.
     */
    ghost predicate Valid()
      reads this
    {
      (forall h :: h in types ==> h.kind == TypeDefinitionKind && !h.IsNil())
      && (forall h :: h in typeReferences ==> h.kind == TypeReferenceKind && !h.IsNil())
      && (forall h :: h in asmReferences ==> h.kind == AssemblyReferenceKind)
      && 0 !in namespaces
      && (forall i :: 0 <= i < |typeOrder| ==> typeOrder[i] in types)
      && (forall h :: h in types ==> h in typeOrder)
      && (forall i, j :: 0 <= i < j < |typeOrder| && typeOrder[i] in types && typeOrder[j] in types
            ==> types[typeOrder[i]] != types[typeOrder[j]])
      && (forall i :: 0 <= i < |namespaceOrder| ==> namespaceOrder[i] in namespaces)
      && (forall h :: h in namespaces ==> h in namespaceOrder)
      && (forall d, e :: d in types && e in typeReferences ==> types[d] != typeReferences[e])
    }

    /**
     * No cached type node has an element type: they stay readable by name.
     * Every definition node owns its properties and events.
     */
    ghost predicate Plain()
      reads this, types.Values`elementType, types.Values`properties, types.Values`events, typeReferences.Values`elementType
    {
      (forall h :: h in types ==> types[h].elementType == null && types[h].OwnsMembers())
      && (forall h :: h in typeReferences ==> typeReferences[h].elementType == null)
    }

    /** The caches only grow between two states. */
    twostate predicate Extends()
      reads this
    {
      SubMap(old(types), types) && SubMap(old(typeReferences), typeReferences)
      && SubMap(old(asmReferences), asmReferences) && SubMap(old(namespaces), namespaces)
      && old(typeOrder) <= typeOrder && old(namespaceOrder) <= namespaceOrder
    }

    /**
     * Every definition node cached since the earlier state is a fresh blank
     * node, and every namespace node cached since then is fresh: the
     * registry never caches a node somebody else already holds.
     */
    twostate predicate FreshEntries()
      reads this, types.Values
    {
      (forall h :: h in types && h !in old(types) ==> fresh(types[h]) && types[h].Blank())
      && (forall k :: k in namespaces && k !in old(namespaces) ==> fresh(namespaces[k]))
    }

    /** DocsInfoProvider.Types: the definition nodes, never a reference node. */
    function Types(): (r: seq<TypeInfo>)
      reads this
      requires Valid()
      ensures |r| == |typeOrder|
      ensures forall i :: 0 <= i < |r| ==> typeOrder[i] in types && r[i] == types[typeOrder[i]]
    {
      seq(|typeOrder|, i requires 0 <= i < |typeOrder| && typeOrder[i] in types reads this => types[typeOrder[i]])
    }

    /** Types lists every definition node and nothing else: never a reference node. */
    lemma {:induction false} TypesAreDefinitions()
      requires Valid()
      ensures forall i :: 0 <= i < |Types()| ==> exists h :: h in types && types[h] == Types()[i]
      ensures forall h :: h in types ==> types[h] in Types()
      ensures forall i, h :: 0 <= i < |Types()| && h in typeReferences ==> Types()[i] != typeReferences[h]
    {
      var r := Types();
      forall i | 0 <= i < |r| ensures exists h :: h in types && types[h] == r[i] {
        var h := typeOrder[i];
        assert h in types && types[h] == r[i];
      }
      assert forall i :: 0 <= i < |r| ==> exists h :: h in types && types[h] == r[i];
      forall h | h in types ensures types[h] in r {
        var i :| 0 <= i < |typeOrder| && typeOrder[i] == h;
        assert r[i] == types[h];
      }
    }

    /** DocsInfoProvider.Namespaces */
    function Namespaces(): (r: seq<NamespaceInfo>)
      reads this
      requires Valid()
      ensures |r| == |namespaceOrder|
      ensures forall i :: 0 <= i < |r| ==> namespaceOrder[i] in namespaces && r[i] == namespaces[namespaceOrder[i]]
    {
      seq(|namespaceOrder|, i requires 0 <= i < |namespaceOrder| && namespaceOrder[i] in namespaces reads this =>
        namespaces[namespaceOrder[i]])
    }

    /** Namespaces lists every cached namespace node and nothing else. */
    lemma {:induction false} NamespacesAreCached()
      requires Valid()
      ensures forall i :: 0 <= i < |Namespaces()| ==> exists h :: h in namespaces && h != 0 && namespaces[h] == Namespaces()[i]
      ensures forall h :: h in namespaces ==> namespaces[h] in Namespaces()
    {
      var r := Namespaces();
      forall i | 0 <= i < |r| ensures exists h :: h in namespaces && h != 0 && namespaces[h] == r[i] {
        var h := namespaceOrder[i];
        assert h in namespaces;
        assert h != 0;
        assert namespaces[h] == r[i];
      }
      assert forall i :: 0 <= i < |r| ==> exists h :: h in namespaces && h != 0 && namespaces[h] == r[i];
      forall h | h in namespaces ensures namespaces[h] in r {
        var i :| 0 <= i < |namespaceOrder| && namespaceOrder[i] == h;
        assert r[i] == namespaces[h];
      }
    }

    /**
     * The TypeDefinition case: the cached node, or a fresh blank node cached
     * under the handle and returned.
     */
    method ResolveDefinition(h: Handle) returns (t: TypeInfo)
      requires Valid() && Plain() && h.kind == TypeDefinitionKind && !h.IsNil()
      modifies this
      ensures Valid() && Plain() && Extends() && FreshEntries()
      ensures h in types && t == types[h]
      ensures h in old(types) ==> t == old(types[h]) && unchanged(this)
      ensures h !in old(types) ==> fresh(t) && t.Blank() && types == old(types)[h := t]
      ensures h !in old(types) ==> typeOrder == old(typeOrder) + [h]
      ensures typeReferences == old(typeReferences) && asmReferences == old(asmReferences)
      ensures namespaces == old(namespaces) && namespaceOrder == old(namespaceOrder)
    {
      if h in types {
        return types[h];
      }
      t := CacheBlank(h);
    }

    /** A fresh blank node cached under the definition handle h, last in the order. */
    method CacheBlank(h: Handle) returns (t: TypeInfo)
      requires Valid() && Plain() && h.kind == TypeDefinitionKind && !h.IsNil() && h !in types
      modifies this
      ensures Valid() && Plain() && Extends() && FreshEntries()
      ensures fresh(t) && t.Blank() && types == old(types)[h := t] && typeOrder == old(typeOrder) + [h]
      ensures typeReferences == old(typeReferences) && asmReferences == old(asmReferences)
      ensures namespaces == old(namespaces) && namespaceOrder == old(namespaceOrder)
    {
      t := new TypeInfo();
      assert t.Blank() && t.OwnsMembers();
      assert forall i :: 0 <= i < |typeOrder| ==> typeOrder[i] != h && types[typeOrder[i]] != t;
      types := types[h := t];
      typeOrder := typeOrder + [h];
      forall k | k in types ensures types[k].elementType == null && types[k].OwnsMembers() {
        if k != h {
          assert types[k] == old(types[k]);
        }
      }
    }

    /**
     * The TypeReference case: the cached node, or a fresh external node with
     * the row's namespace and name and the assembly its resolution scope
     * resolves to.
     */
    method ResolveReference(h: Handle) returns (r: Result<TypeInfo?, Exception>)
      requires Valid() && Plain() && h.kind == TypeReferenceKind && !h.IsNil()
      modifies this
      ensures Valid() && Plain() && Extends() && FreshEntries()
      ensures types == old(types) && typeOrder == old(typeOrder)
      ensures namespaces == old(namespaces) && namespaceOrder == old(namespaceOrder)
      ensures h in old(typeReferences) ==> r == Ok(old(typeReferences[h]) as TypeInfo?) && unchanged(this)
      ensures h !in old(typeReferences) && h.row !in reader.typeReferences ==> r == Err(BadImageFormat) && unchanged(this)
      ensures r.Ok? ==> h in typeReferences && r.value == typeReferences[h]
      ensures r.Ok? && h !in old(typeReferences) ==> fresh(r.value) && ReferenceNode(r.value, reader.typeReferences[h.row])
      ensures r.Ok? && h !in old(typeReferences) ==> typeReferences == old(typeReferences)[h := r.value]
    {
      if h in typeReferences {
        return Ok(typeReferences[h]);
      }
      if h.row !in reader.typeReferences {
        return Err(BadImageFormat);
      }
      var row := reader.typeReferences[h.row];
      var assembly := ResolveScope(row.scope);
      if assembly.Err? {
        return Err(assembly.error);
      }
      var t := NewReferenceNode(row, assembly.value);
      typeReferences := typeReferences[h := t];
      r := Ok(t);
    }

    /** The fields a reference node takes from its TypeRef row and the assembly cache. */
    ghost predicate ReferenceNode(t: TypeInfo?, row: TypeReferenceRow)
      reads this, t
    {
      t != null && t.ns == Some(row.ns) && t.baseName == Some(row.name) && t.isExternalReference
      && t.elementType == null && t.declaringType == null && t.genericArguments.None?
      && (row.scope in asmReferences ==> t.assembly == asmReferences[row.scope])
      && (row.scope !in asmReferences ==> t.assembly == null)
    }

    /**
     * The assembly of a resolution scope: the cached one; for an
     * AssemblyReference scope seen for the first time a fresh assembly named
     * from the reader's row, cached under the scope; for any other scope
     * kind none.
     */
    method ResolveScope(scope: Handle) returns (r: Result<AssemblyInfo?, Exception>)
      requires Valid() && Plain()
      modifies this
      ensures Valid() && Plain() && Extends() && FreshEntries()
      ensures types == old(types) && typeOrder == old(typeOrder) && typeReferences == old(typeReferences)
      ensures namespaces == old(namespaces) && namespaceOrder == old(namespaceOrder)
      ensures scope in old(asmReferences) ==> r == Ok(old(asmReferences[scope]) as AssemblyInfo?) && unchanged(this)
      ensures scope !in old(asmReferences) && scope.kind == AssemblyReferenceKind && scope.row !in reader.assemblyReferences
        ==> r == Err(BadImageFormat) && unchanged(this)
      ensures scope !in old(asmReferences) && scope.kind == AssemblyReferenceKind && scope.row in reader.assemblyReferences
        ==> (r.Ok? && r.value != null && fresh(r.value) && r.value.name == reader.assemblyReferences[scope.row]
             && asmReferences == old(asmReferences)[scope := r.value])
      ensures scope !in old(asmReferences) && scope.kind != AssemblyReferenceKind ==> r == Ok(null) && unchanged(this)
      ensures r.Ok? ==> (scope in asmReferences ==> r.value == asmReferences[scope]) && (scope !in asmReferences ==> r.value == null)
    {
      if scope in asmReferences {
        return Ok(asmReferences[scope]);
      }
      if scope.kind != AssemblyReferenceKind {
        return Ok(null);
      }
      if scope.row !in reader.assemblyReferences {
        return Err(BadImageFormat);
      }
      var assembly := new AssemblyInfo(reader.assemblyReferences[scope.row]);
      asmReferences := asmReferences[scope := assembly];
      r := Ok(assembly);
    }

    /**
     * DocsInfoProvider.ResolveType. A nil handle gives null; an exported
     * type resolves to whatever its Implementation resolves to; definitions
     * and references are memoised; a specification is decoded afresh; any
     * other kind is an ArgumentOutOfRangeException. A missing row is a
     * malformed image.
     */
    method ResolveType(h: Handle) returns (r: Result<TypeInfo?, Exception>)
      requires Valid() && Plain() && WellFormed(reader)
      modifies this
      ensures Valid() && Plain() && Extends() && FreshEntries()
      ensures r.Ok? && r.value != null ==> r.value.ElementRanked()
      ensures r.Ok? && !h.IsNil() && h.kind in {TypeDefinitionKind, TypeReferenceKind, TypeSpecificationKind}
        ==> r.value != null
      ensures h.IsNil() ==> r == Ok(null) && unchanged(this)
      ensures !h.IsNil() && h.kind == TypeDefinitionKind ==> r.Ok? && h in types && r.value == types[h]
      ensures !h.IsNil() && h.kind == TypeDefinitionKind && h in old(types) ==> r.value == old(types[h]) && unchanged(this)
      ensures !h.IsNil() && h.kind == TypeDefinitionKind && h !in old(types) ==> fresh(r.value) && r.value.Blank()
      ensures !h.IsNil() && h.kind == TypeReferenceKind && r.Ok? ==> h in typeReferences && r.value == typeReferences[h]
      ensures !h.IsNil() && h.kind == TypeReferenceKind && h in old(typeReferences)
        ==> r == Ok(old(typeReferences[h]) as TypeInfo?) && unchanged(this)
      ensures !h.IsNil() && h.kind == TypeReferenceKind && h !in old(typeReferences) && h.row in reader.typeReferences && r.Ok?
        ==> fresh(r.value) && ReferenceNode(r.value, reader.typeReferences[h.row])
      ensures !h.IsNil() && h.kind == TypeSpecificationKind && h.row !in reader.typeSpecifications
        ==> r == Err(BadImageFormat)
      ensures !h.IsNil() && h.kind == TypeSpecificationKind && r.Ok? && AllocatingShape(reader.typeSpecifications[h.row])
        ==> r.value != null && fresh(r.value)
      ensures !h.IsNil() && h.kind == ExportedTypeKind && h.row !in reader.exportedTypes ==> r == Err(BadImageFormat)
      ensures !h.IsNil() && h.kind !in {TypeDefinitionKind, TypeReferenceKind, TypeSpecificationKind, ExportedTypeKind}
        ==> r == Err(ArgumentOutOfRange("handle")) && unchanged(this)
      decreases if h.kind == ExportedTypeKind then h.row + 1 else 0
    {
      if h.IsNil() {
        return Ok(null);
      }
      match h.kind
      case ExportedTypeKind =>
        if h.row !in reader.exportedTypes {
          return Err(BadImageFormat);
        }
        r := ResolveType(reader.exportedTypes[h.row]);
      case TypeDefinitionKind =>
        var t := ResolveDefinition(h);
        r := Ok(t);
      case TypeReferenceKind =>
        r := ResolveReference(h);
      case TypeSpecificationKind =>
        if h.row !in reader.typeSpecifications {
          return Err(BadImageFormat);
        }
        r := Decode(reader.typeSpecifications[h.row], NoContext, h.row);
      case _ =>
        r := Err(ArgumentOutOfRange("handle"));
    }

    /**
     * DocsInfoProvider.ResolveNamespace: null for the nil handle, otherwise
     * the cached node or a fresh empty one cached under the handle.
     */
    method ResolveNamespace(h: nat) returns (n: NamespaceInfo?)
      requires Valid()
      modifies this
      ensures Valid() && Extends() && FreshEntries()
      ensures types == old(types) && typeOrder == old(typeOrder) && typeReferences == old(typeReferences)
      ensures asmReferences == old(asmReferences)
      ensures h == 0 ==> n == null && unchanged(this)
      ensures h != 0 ==> h in namespaces && n == namespaces[h]
      ensures h != 0 && h in old(namespaces) ==> n == old(namespaces[h]) && unchanged(this)
      ensures h != 0 && h !in old(namespaces) ==> fresh(n) && n.types.None? && n.name.None? && n.parent == null
      ensures h != 0 && h !in old(namespaces) ==> namespaces == old(namespaces)[h := n] && namespaceOrder == old(namespaceOrder) + [h]
    {
      if h == 0 {
        return null;
      }
      if h in namespaces {
        return namespaces[h];
      }
      n := new NamespaceInfo();
      namespaces := namespaces[h := n];
      namespaceOrder := namespaceOrder + [h];
    }

    /**
     * SignatureDecoder.DecodeType over this registry's callbacks. A class
     * handle goes to the definition or reference case; a nil handle, a
     * specification (allowed only as a custom modifier), a handle of any
     * other kind or an undefined primitive code is a malformed signature. A
     * result is never null and always has a readable name.
     */
    method Decode(sig: Sig, ctx: GenericContext, ghost bound: nat) returns (r: Result<TypeInfo?, Exception>)
      requires Valid() && Plain() && WellFormed(reader)
      requires SpecRefsBelow(sig, bound) && ContextNamed(ctx)
      modifies this
      ensures Valid() && Plain() && Extends() && FreshEntries()
      ensures r.Ok? ==> r.value != null && r.value.ElementRanked()
      ensures r.Ok? && AllocatingShape(sig) ==> fresh(r.value)
      ensures sig.PrimitiveSig? ==> (r.Ok? <==> !sig.code.Undefined?)
      ensures sig.PrimitiveSig? && r.Ok? ==> Some(r.value.Name()) == RuntimeName(sig.code)
      ensures sig.ClassSig? && sig.handle.IsNil() ==> r == Err(BadImageFormat)
      ensures sig.ClassSig? && !sig.handle.IsNil() && sig.handle.kind == TypeDefinitionKind
        ==> r.Ok? && sig.handle in types && r.value == types[sig.handle]
      ensures sig.ClassSig? && !sig.handle.IsNil() && sig.handle.kind == TypeReferenceKind && r.Ok?
        ==> sig.handle in typeReferences && r.value == typeReferences[sig.handle]
      ensures sig.ClassSig? && !sig.handle.IsNil()
        && sig.handle.kind !in {TypeDefinitionKind, TypeReferenceKind}
        ==> r == Err(BadImageFormat)
      ensures sig.ModifiedSig? && sig.modifier.ClassSig? && !sig.modifier.handle.IsNil()
        && sig.modifier.handle.kind == TypeDefinitionKind && r.Ok?
        ==> sig.modifier.handle in types && r.value == types[sig.modifier.handle]
      ensures sig.ModifiedSig? && sig.modifier.ClassSig? && !sig.modifier.handle.IsNil()
        && sig.modifier.handle.kind == TypeReferenceKind && r.Ok?
        ==> sig.modifier.handle in typeReferences && r.value == typeReferences[sig.modifier.handle]
      ensures sig.ModifiedSig? && sig.modifier.ClassSig? && (sig.modifier.handle.IsNil()
        || sig.modifier.handle.kind !in {TypeDefinitionKind, TypeReferenceKind, TypeSpecificationKind})
        ==> r == Err(BadImageFormat)
      decreases bound, sig, 2
    {
      match sig
      case PrimitiveSig(code) =>
        if code.Undefined? {
          r := Err(BadImageFormat);
        } else {
          var t := GetPrimitiveType(code, hostAttributes(code));
          r := Ok(t);
        }
      case ClassSig(h) =>
        r := DecodeClass(sig, bound, false);
      case SZArraySig(e) =>
        r := DecodeWrapper(sig, ctx, bound, SZArray);
      case PointerSig(e) =>
        r := DecodeWrapper(sig, ctx, bound, Pointer);
      case ByRefSig(e) =>
        r := DecodeWrapper(sig, ctx, bound, ByReference);
      case ArraySig(e, rank) =>
        r := DecodeShaped(sig, ctx, bound);
      case PinnedSig(e) =>
        r := DecodeShaped(sig, ctx, bound);
      case ModifiedSig(m, u, isRequired) =>
        r := DecodeModified(sig, ctx, bound);
      case GenericInstSig(o, args) =>
        r := DecodeGenericInstance(sig, ctx, bound);
      case GenericTypeParameterSig(index) =>
        var t := GetGenericTypeParameter(ctx, index);
        r := Ok(t);
      case GenericMethodParameterSig(index) =>
        var t := GetGenericMethodParameter(ctx, index);
        r := Ok(t);
      case FunctionPointerSig =>
        var t := GetFunctionPointerType();
        r := Ok(t);
    }

    /**
     * SignatureDecoder.DecodeTypeHandle: a definition, a reference, or, only
     * where specifications are allowed, a specification resolved in turn;
     * a specification elsewhere, a nil handle or another table is malformed.
     */
    method DecodeClass(sig: Sig, ghost bound: nat, allowSpecifications: bool) returns (r: Result<TypeInfo?, Exception>)
      requires sig.ClassSig?
      requires Valid() && Plain() && WellFormed(reader)
      requires SpecRefsBelow(sig, bound)
      modifies this
      ensures Valid() && Plain() && Extends() && FreshEntries()
      ensures r.Ok? ==> r.value != null && r.value.ElementRanked()
      ensures sig.handle.IsNil() ==> r == Err(BadImageFormat)
      ensures !sig.handle.IsNil() && sig.handle.kind == TypeDefinitionKind
        ==> r.Ok? && sig.handle in types && r.value == types[sig.handle]
      ensures !sig.handle.IsNil() && sig.handle.kind == TypeReferenceKind && r.Ok?
        ==> sig.handle in typeReferences && r.value == typeReferences[sig.handle]
      ensures !sig.handle.IsNil() && sig.handle.kind !in {TypeDefinitionKind, TypeReferenceKind, TypeSpecificationKind}
        ==> r == Err(BadImageFormat)
      ensures !sig.handle.IsNil() && sig.handle.kind == TypeSpecificationKind && !allowSpecifications
        ==> r == Err(BadImageFormat)
      ensures !sig.handle.IsNil() && sig.handle.kind == TypeSpecificationKind && allowSpecifications
        && sig.handle.row !in reader.typeSpecifications
        ==> r == Err(BadImageFormat)
      decreases bound, sig, 0
    {
      var h := sig.handle;
      if h.IsNil() {
        r := Err(BadImageFormat);
      } else if h.kind == TypeDefinitionKind {
        var t := ResolveDefinition(h);
        r := Ok(t);
      } else if h.kind == TypeReferenceKind {
        r := ResolveReference(h);
      } else if h.kind == TypeSpecificationKind {
        if !allowSpecifications || h.row !in reader.typeSpecifications {
          r := Err(BadImageFormat);
        } else {
          r := Decode(reader.typeSpecifications[h.row], NoContext, h.row);
        }
      } else {
        r := Err(BadImageFormat);
      }
    }

    /** The multi-dimensional array and pinned shapes: decode the element, then look up the shaped node. */
    method DecodeShaped(sig: Sig, ctx: GenericContext, ghost bound: nat) returns (r: Result<TypeInfo?, Exception>)
      requires sig.ArraySig? || sig.PinnedSig?
      requires Valid() && Plain() && WellFormed(reader)
      requires SpecRefsBelow(sig, bound) && ContextNamed(ctx)
      modifies this
      ensures Valid() && Plain() && Extends() && FreshEntries()
      ensures r.Ok? ==> r.value != null && r.value.ElementRanked()
      decreases bound, sig, 0
    {
      match sig
      case ArraySig(e, rank) =>
        r := Decode(e, ctx, bound);
        if r.Ok? {
          r := Ok(GetArrayType(r.value, rank));
        }
      case PinnedSig(e) =>
        r := Decode(e, ctx, bound);
        if r.Ok? {
          r := Ok(GetPinnedType(r.value));
        }
    }

    /**
     * SignatureDecoder.DecodeModifiedType: the modifier, a type handle that
     * may name a specification, then the unmodified type, then the modified node.
     */
    method DecodeModified(sig: Sig, ctx: GenericContext, ghost bound: nat) returns (r: Result<TypeInfo?, Exception>)
      requires sig.ModifiedSig?
      requires Valid() && Plain() && WellFormed(reader)
      requires SpecRefsBelow(sig, bound) && ContextNamed(ctx)
      modifies this
      ensures Valid() && Plain() && Extends() && FreshEntries()
      ensures r.Ok? ==> r.value != null && r.value.ElementRanked()
      ensures sig.modifier.ClassSig? && !sig.modifier.handle.IsNil() && sig.modifier.handle.kind == TypeDefinitionKind && r.Ok?
        ==> sig.modifier.handle in types && r.value == types[sig.modifier.handle]
      ensures sig.modifier.ClassSig? && !sig.modifier.handle.IsNil() && sig.modifier.handle.kind == TypeReferenceKind && r.Ok?
        ==> sig.modifier.handle in typeReferences && r.value == typeReferences[sig.modifier.handle]
      ensures sig.modifier.ClassSig? && (sig.modifier.handle.IsNil()
        || sig.modifier.handle.kind !in {TypeDefinitionKind, TypeReferenceKind, TypeSpecificationKind})
        ==> r == Err(BadImageFormat)
      decreases bound, sig, 0
    {
      var m, u, isRequired := sig.modifier, sig.unmodified, sig.isRequired;
      r := DecodeModifier(m, ctx, bound);
      if r.Ok? {
        var unmodified := Decode(u, ctx, bound);
        if unmodified.Err? {
          r := Err(unmodified.error);
        } else {
          r := Ok(GetModifiedType(r.value, unmodified.value, isRequired));
        }
      }
    }

    /** The modifier of a modified type: the one place a type handle may name a specification. */
    method DecodeModifier(m: Sig, ctx: GenericContext, ghost bound: nat) returns (r: Result<TypeInfo?, Exception>)
      requires Valid() && Plain() && WellFormed(reader)
      requires SpecRefsBelow(m, bound) && ContextNamed(ctx)
      modifies this
      ensures Valid() && Plain() && Extends() && FreshEntries()
      ensures r.Ok? ==> r.value != null && r.value.ElementRanked()
      ensures m.ClassSig? && !m.handle.IsNil() && m.handle.kind == TypeDefinitionKind
        ==> r.Ok? && m.handle in types && r.value == types[m.handle]
      ensures m.ClassSig? && !m.handle.IsNil() && m.handle.kind == TypeReferenceKind && r.Ok?
        ==> m.handle in typeReferences && r.value == typeReferences[m.handle]
      ensures m.ClassSig? && (m.handle.IsNil() || m.handle.kind !in {TypeDefinitionKind, TypeReferenceKind, TypeSpecificationKind})
        ==> r == Err(BadImageFormat)
      decreases bound, m, 3
    {
      if m.ClassSig? {
        r := DecodeClass(m, bound, true);
      } else {
        r := Decode(m, ctx, bound);
      }
    }

    /** The pointer, by-ref and single-dimension array shapes: decode the element, then wrap it. */
    method DecodeWrapper(sig: Sig, ctx: GenericContext, ghost bound: nat, kind: WrapperKind) returns (r: Result<TypeInfo?, Exception>)
      requires sig.SZArraySig? || sig.PointerSig? || sig.ByRefSig?
      requires Valid() && Plain() && WellFormed(reader)
      requires SpecRefsBelow(sig, bound) && ContextNamed(ctx)
      modifies this
      ensures Valid() && Plain() && Extends() && FreshEntries()
      ensures r.Ok? ==> r.value != null && fresh(r.value) && r.value.ElementRanked()
      ensures r.Ok? ==> r.value.isArray == (kind == SZArray) && r.value.isPointer == (kind == Pointer)
      ensures r.Ok? ==> r.value.isByRef == (kind == ByReference) && r.value.isExternalReference
      decreases bound, sig, 0
    {
      var element := Decode(sig.element, ctx, bound);
      if element.Err? {
        return Err(element.error);
      }
      var t := GetWrapperType(element.value, kind);
      r := Ok(t);
    }

    /**
     * The generic instance shape: the open type, then each argument in
     * order, then the instantiation.
     */
    method DecodeGenericInstance(sig: Sig, ctx: GenericContext, ghost bound: nat) returns (r: Result<TypeInfo?, Exception>)
      requires sig.GenericInstSig?
      requires Valid() && Plain() && WellFormed(reader)
      requires SpecRefsBelow(sig, bound) && ContextNamed(ctx)
      modifies this
      ensures Valid() && Plain() && Extends() && FreshEntries()
      ensures r.Ok? ==> r.value != null && fresh(r.value) && r.value.ElementRanked() && r.value.isGenericType
      ensures sig.open.ClassSig? && (sig.open.handle.IsNil() || sig.open.handle.kind !in {TypeDefinitionKind, TypeReferenceKind})
        ==> r == Err(BadImageFormat)
      decreases bound, sig, 1
    {
      var open := Decode(sig.open, ctx, bound);
      if open.Err? {
        return Err(open.error);
      }
      var args := DecodeArguments(sig, ctx, bound, open.value);
      if args.Err? {
        return Err(args.error);
      }
      var t := GetGenericInstantiation(open.value, args.value);
      r := Ok(t);
    }

    /** The arguments of a generic instance, decoded in order; the first failure stops the loop. */
    method DecodeArguments(sig: Sig, ctx: GenericContext, ghost bound: nat, open: TypeInfo)
      returns (r: Result<seq<TypeInfo>, Exception>)
      requires sig.GenericInstSig?
      requires Valid() && Plain() && WellFormed(reader)
      requires SpecRefsBelow(sig, bound) && ContextNamed(ctx) && open.ElementRanked()
      modifies this
      ensures Valid() && Plain() && Extends() && FreshEntries()
      ensures open.ElementRanked() && ContextNamed(ctx)
      ensures r.Ok? ==> |r.value| == |sig.args|
      decreases bound, sig, 0
    {
      var args: seq<TypeInfo> := [];
      var i := 0;
      while i < |sig.args|
        invariant 0 <= i <= |sig.args| && |args| == i
        invariant Valid() && Plain() && Extends() && FreshEntries()
        invariant open.ElementRanked()
        invariant ContextNamed(ctx)
      {
        var arg := Decode(sig.args[i], ctx, bound);
        if arg.Err? {
          return Err(arg.error);
        }
        args := args + [arg.value];
        i := i + 1;
      }
      return Ok(args);
    }
  }

  /** The shapes whose callback allocates a node on every decode. */
  predicate AllocatingShape(sig: Sig)
  {
    (sig.PrimitiveSig? && !sig.code.Undefined?) || sig.SZArraySig? || sig.PointerSig? || sig.ByRefSig?
    || sig.GenericInstSig? || sig.GenericTypeParameterSig? || sig.GenericMethodParameterSig? || sig.FunctionPointerSig?
  }

  /** A fresh external node with a TypeRef row's namespace and name and the given assembly. */
  method NewReferenceNode(row: TypeReferenceRow, assembly: AssemblyInfo?) returns (t: TypeInfo)
    ensures fresh(t) && t.ns == Some(row.ns) && t.baseName == Some(row.name) && t.isExternalReference
    ensures t.assembly == assembly && t.elementType == null && t.declaringType == null && t.genericArguments.None?
  {
    t := new TypeInfo();
    t.ns := Some(row.ns);
    t.baseName := Some(row.name);
    t.assembly := assembly;
    t.isExternalReference := true;
  }
}
