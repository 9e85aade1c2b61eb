/**
 * CreateMemberRelations: builds namespace, type and member nodes from the
 * parsed records and links every member to its declaring type and every
 * type to its namespace, making up the types and namespaces nobody
 * documented. Dictionaries are kept as sequences in insertion order, which
 * is the order .NET enumerates a dictionary that never had a removal.
 */
module MemberRelations {
  import opened Wrappers
  import opened CodeReferences
  import opened XmlInfo

  /** The records of one cref kind, in document order. */
  function OfKind(ds: seq<DerivedInfo>, k: Kind): (r: seq<DerivedInfo>)
    ensures |r| <= |ds|
    ensures forall d :: d in r <==> d in ds && d.name.kind == k
  {
    if ds == [] then []
    else (if ds[0].name.kind == k then [ds[0]] else []) + OfKind(ds[1..], k)
  }

  predicate Distinct(keys: seq<string>)
  {
    forall i, j :: 0 <= i < j < |keys| ==> keys[i] != keys[j]
  }

  /** The keys ToDictionary uses for namespaces. */
  function NamespaceKeys(ds: seq<DerivedInfo>): (r: seq<string>)
    ensures |r| == |ds| && forall i :: 0 <= i < |ds| ==> r[i] == ds[i].name.ns
  {
    seq(|ds|, i requires 0 <= i < |ds| => ds[i].name.ns)
  }

  /** The keys ToDictionary uses for types. */
  function TypeKeys(ds: seq<DerivedInfo>): (r: seq<string>)
    ensures |r| == |ds| && forall i :: 0 <= i < |ds| ==> r[i] == TypeKey(ds[i].name)
  {
    seq(|ds|, i requires 0 <= i < |ds| => TypeKey(ds[i].name))
  }

  function CrefKind(k: MemberKind): Kind
  {
    match k
    case MethodMember => Method
    case PropertyMember => Property
    case FieldMember => Field
    case EventMember => Event
  }

  /** The record Get makes up for a type that has no documentation of its own. */
  function SynthesisedType(c: CodeReference): DerivedInfo
  {
    Blank(CodeReference(Type, c.ns, c.typeName, None))
  }

  /** The record made up for a namespace that has no documentation of its own (its kind is Type, as written). */
  function SynthesisedNamespace(ns: string): DerivedInfo
  {
    Blank(CodeReference(Type, ns, None, None))
  }

  /* Types and their members */

  predicate TypeNamesDistinct(types: seq<XmlDocTypeInfo>)
  {
    forall i, j :: 0 <= i < j < |types| ==> types[i].Name() != types[j].Name()
  }

  /** The members of one kind, among ms, whose declaring key is key, in order. */
  function Attached(ms: seq<XmlDocMemberInfo>, k: MemberKind, key: string): (r: seq<XmlDocMemberInfo>)
    ensures forall m :: m in r ==> m in ms && m.kind == k && m.DeclaringKey() == key
  {
    if ms == [] then []
    else
      var last := ms[|ms| - 1];
      Attached(ms[..|ms| - 1], k, key) + (if last.kind == k && last.DeclaringKey() == key then [last] else [])
  }

  lemma {:induction false} AttachedNone(ms: seq<XmlDocMemberInfo>, k: MemberKind, key: string)
    requires forall m :: m in ms ==> m.DeclaringKey() != key
    ensures Attached(ms, k, key) == []
  {
    if ms != [] {
      AttachedNone(ms[..|ms| - 1], k, key);
    }
  }

  lemma {:induction false} AttachedSnoc(ms: seq<XmlDocMemberInfo>, m: XmlDocMemberInfo, k: MemberKind, key: string)
    ensures Attached(ms + [m], k, key)
      == Attached(ms, k, key) + (if m.kind == k && m.DeclaringKey() == key then [m] else [])
  {
    assert (ms + [m])[..|ms|] == ms;
  }

  /**
   * The state the relation loops keep: type keys are unique, every member
   * done so far points at the type with its declaring key, and each type's
   * list of a kind holds exactly the members of that kind declared by it,
   * in the order they were processed.
   */
  predicate Linked(types: seq<XmlDocTypeInfo>, done: seq<XmlDocMemberInfo>)
    reads types, done
  {
    TypeNamesDistinct(types) && DeclaringTypesSet(types, done) && MemberListsExact(types, done)
  }

  /** Every member done so far points at the type with its declaring key. */
  predicate DeclaringTypesSet(types: seq<XmlDocTypeInfo>, done: seq<XmlDocMemberInfo>)
    reads done
  {
    forall m :: m in done ==>
      m.declaringType != null && m.declaringType in types && m.declaringType.Name() == m.DeclaringKey()
  }

  /** Each type's list of a kind holds exactly the members of that kind it declares, in processing order. */
  predicate MemberListsExact(types: seq<XmlDocTypeInfo>, done: seq<XmlDocMemberInfo>)
    reads types
  {
    forall t, k :: t in types ==> t.MembersOf(k) == Attached(done, k, t.Name())
  }

  /** The type index with the given key, or -1 (Dictionary.TryGetValue). */
  function FindType(types: seq<XmlDocTypeInfo>, key: string): (r: int)
    ensures -1 <= r < |types|
    ensures r >= 0 ==> types[r].Name() == key
    ensures r < 0 ==> forall t :: t in types ==> t.Name() != key
  {
    if types == [] then -1
    else if types[|types| - 1].Name() == key then |types| - 1
    else FindType(types[..|types| - 1], key)
  }

  /** Get: the type with the member's declaring key, added to the dictionary when missing. */
  method Get(types: seq<XmlDocTypeInfo>, m: XmlDocMemberInfo) returns (t: XmlDocTypeInfo, types': seq<XmlDocTypeInfo>)
    ensures t in types' && t.Name() == m.DeclaringKey()
    ensures t in types ==> types' == types
    ensures t !in types ==> (types' == types + [t] && fresh(t)
      && (forall u :: u in types ==> u.Name() != t.Name())
      && t.info == SynthesisedType(m.info.name)
      && (forall k :: t.MembersOf(k) == []) && t.ns == null)
  {
    var i := FindType(types, m.DeclaringKey());
    if i >= 0 {
      t, types' := types[i], types;
    } else {
      t := new XmlDocTypeInfo(SynthesisedType(m.info.name));
      types' := types + [t];
    }
  }

  /** Types that were made up by Get, each for some member that needed it. */
  predicate SynthesisedFor(t: XmlDocTypeInfo, ms: seq<XmlDocMemberInfo>)
  {
    exists m :: m in ms && t.info == SynthesisedType(m.info.name)
  }

  /** value.Methods.Add(m) (or the list of the member's kind): the lists match the members done so far plus m. */
  method AddToType(types: seq<XmlDocTypeInfo>, ghost done: seq<XmlDocMemberInfo>, t: XmlDocTypeInfo, m: XmlDocMemberInfo)
    requires t in types && t.Name() == m.DeclaringKey()
    requires TypeNamesDistinct(types) && MemberListsExact(types, done)
    modifies t
    ensures MemberListsExact(types, done + [m])
    ensures t.ns == old(t.ns)
  {
    t.AddMember(m);
    forall u, k | u in types ensures u.MembersOf(k) == Attached(done + [m], k, u.Name()) {
      AttachedSnoc(done, m, k, u.Name());
      if u == t {
        assert u.MembersOf(k) == old(u.MembersOf(k)) + (if k == m.kind then [m] else []);
      } else {
        TypeNamesDiffer(types, u, t);
        assert u.MembersOf(k) == old(u.MembersOf(k));
      }
    }
  }

  lemma {:induction false} TypeNamesDiffer(types: seq<XmlDocTypeInfo>, u: XmlDocTypeInfo, t: XmlDocTypeInfo)
    requires TypeNamesDistinct(types) && u in types && t in types && u != t
    ensures u.Name() != t.Name()
  {
    var i :| 0 <= i < |types| && types[i] == u;
    var j :| 0 <= j < |types| && types[j] == t;
    assert i != j;
  }

  /** m.DeclaringType = value */
  method SetDeclaringType(types: seq<XmlDocTypeInfo>, ghost done: seq<XmlDocMemberInfo>, t: XmlDocTypeInfo, m: XmlDocMemberInfo)
    requires t in types && t.Name() == m.DeclaringKey()
    requires DeclaringTypesSet(types, done)
    modifies m
    ensures DeclaringTypesSet(types, done + [m])
  {
    m.declaringType := t;
    forall m' | m' in done + [m]
      ensures m'.declaringType != null && m'.declaringType in types && m'.declaringType.Name() == m'.DeclaringKey()
    {
      if m' != m {
        assert m' in done && m'.declaringType == old(m'.declaringType);
      }
    }
  }

  /** Add the member to its type's list and point it at the type. */
  method Link(types: seq<XmlDocTypeInfo>, ghost done: seq<XmlDocMemberInfo>, t: XmlDocTypeInfo, m: XmlDocMemberInfo)
    requires t in types && t.Name() == m.DeclaringKey()
    requires Linked(types, done)
    modifies t, m
    ensures Linked(types, done + [m])
    ensures t.ns == old(t.ns)
  {
    AddToType(types, done, t, m);
    SetDeclaringType(types, done, t, m);
  }

  /** One iteration of the relation loops: Get, then Add, then set DeclaringType. */
  method AttachOne(types: seq<XmlDocTypeInfo>, ghost done: seq<XmlDocMemberInfo>, m: XmlDocMemberInfo)
    returns (types': seq<XmlDocTypeInfo>)
    requires Linked(types, done)
    modifies m, set t | t in types
    ensures Linked(types', done + [m])
    ensures types' == types || (|types'| == |types| + 1 && types'[..|types|] == types
      && fresh(types'[|types|]) && types'[|types|].info == SynthesisedType(m.info.name))
  {
    var t;
    t, types' := Get(types, m);
    if t !in types {
      forall m' | m' in done ensures m'.DeclaringKey() != t.Name() {
        assert m'.declaringType in types;
      }
      forall k ensures Attached(done, k, t.Name()) == [] {
        AttachedNone(done, k, t.Name());
      }
      assert Linked(types', done);
    }
    Link(types', done, t, m);
  }

  lemma {:induction false} TypesExtended(start: nat, previous: seq<XmlDocTypeInfo>, next: seq<XmlDocTypeInfo>,
                      batch: seq<XmlDocMemberInfo>, i: nat)
    requires i < |batch| && start <= |previous|
    requires forall j :: start <= j < |previous| ==> SynthesisedFor(previous[j], batch)
    requires next == previous || (|next| == |previous| + 1 && next[..|previous|] == previous
      && next[|previous|].info == SynthesisedType(batch[i].info.name))
    ensures |previous| <= |next| && next[..|previous|] == previous
    ensures forall j :: start <= j < |next| ==> SynthesisedFor(next[j], batch)
  {
    forall j | start <= j < |next| ensures SynthesisedFor(next[j], batch) {
      if j < |previous| {
        assert next[j] == previous[j];
      } else {
        assert batch[i] in batch;
      }
    }
  }

  /** One of the foreach loops of the relation pass: attach every member of batch to its type. */
  method Attach(types: seq<XmlDocTypeInfo>, ghost done: seq<XmlDocMemberInfo>, batch: seq<XmlDocMemberInfo>)
    returns (types': seq<XmlDocTypeInfo>)
    requires Linked(types, done)
    modifies set t | t in types, set m | m in batch
    ensures Linked(types', done + batch)
    ensures |types| <= |types'| && types'[..|types|] == types
    ensures forall i :: |types| <= i < |types'| ==> SynthesisedFor(types'[i], batch)
    ensures forall t :: t in types' ==> t in types || fresh(t)
  {
    types' := types;
    var i := 0;
    assert done + batch[..0] == done;
    while i < |batch|
      invariant 0 <= i <= |batch|
      invariant Linked(types', done + batch[..i])
      invariant |types| <= |types'| && types'[..|types|] == types
      invariant forall j :: |types| <= j < |types'| ==> SynthesisedFor(types'[j], batch)
      invariant forall t :: t in types' ==> t in types || fresh(t)
    {
      assert done + batch[..i + 1] == (done + batch[..i]) + [batch[i]];
      ghost var previous := types';
      types' := AttachOne(types', done + batch[..i], batch[i]);
      TypesExtended(|types|, previous, types', batch, i);
      i := i + 1;
    }
    assert batch[..i] == batch;
  }

  lemma {:induction false} SynthesisedForWider(t: XmlDocTypeInfo, batch: seq<XmlDocMemberInfo>, all: seq<XmlDocMemberInfo>)
    requires SynthesisedFor(t, batch) && forall m :: m in batch ==> m in all
    ensures SynthesisedFor(t, all)
  {
    var m :| m in batch && t.info == SynthesisedType(m.info.name);
    assert m in all;
  }

  /** A later loop keeps what the earlier ones made up: each made-up type is needed by some member. */
  lemma {:induction false} SynthesisedAcross(start: nat, previous: seq<XmlDocTypeInfo>, next: seq<XmlDocTypeInfo>,
                          before: seq<XmlDocMemberInfo>, batch: seq<XmlDocMemberInfo>)
    requires start <= |previous| <= |next| && next[..|previous|] == previous
    requires forall j :: start <= j < |previous| ==> SynthesisedFor(previous[j], before)
    requires forall j :: |previous| <= j < |next| ==> SynthesisedFor(next[j], batch)
    ensures forall j :: start <= j < |next| ==> SynthesisedFor(next[j], before + batch)
  {
    forall j | start <= j < |next| ensures SynthesisedFor(next[j], before + batch) {
      if j < |previous| {
        assert next[j] == previous[j];
        SynthesisedForWider(next[j], before, before + batch);
      } else {
        SynthesisedForWider(next[j], batch, before + batch);
      }
    }
  }

  /** The four foreach loops, in the order methods, properties, fields, events. */
  method AttachAll(types: seq<XmlDocTypeInfo>, methods: seq<XmlDocMemberInfo>, properties: seq<XmlDocMemberInfo>,
                   fields: seq<XmlDocMemberInfo>, events: seq<XmlDocMemberInfo>)
    returns (types': seq<XmlDocTypeInfo>)
    requires Linked(types, [])
    modifies set t | t in types, set m | m in methods, set m | m in properties, set m | m in fields,
      set m | m in events
    ensures Linked(types', methods + properties + fields + events)
    ensures |types| <= |types'| && types'[..|types|] == types
    ensures forall i :: |types| <= i < |types'| ==> SynthesisedFor(types'[i], methods + properties + fields + events)
    ensures forall t :: t in types' ==> t in types || fresh(t)
  {
    var t1 := Attach(types, [], methods);
    assert [] + methods == methods;
    var t2 := Attach(t1, methods, properties);
    SynthesisedAcross(|types|, t1, t2, methods, properties);
    assert t2[..|types|] == t2[..|t1|][..|types|];
    var t3 := Attach(t2, methods + properties, fields);
    SynthesisedAcross(|types|, t2, t3, methods + properties, fields);
    assert t3[..|types|] == t3[..|t2|][..|types|];
    types' := Attach(t3, methods + properties + fields, events);
    SynthesisedAcross(|types|, t3, types', methods + properties + fields, events);
    assert types'[..|types|] == types'[..|t3|][..|types|];
  }

  /* Namespaces and their types */

  predicate NamespaceNamesDistinct(nss: seq<XmlDocNamespaceInfo>)
  {
    forall i, j :: 0 <= i < j < |nss| ==> nss[i].Name() != nss[j].Name()
  }

  /** The types, among ts, whose namespace key is key, in order. */
  function Contained(ts: seq<XmlDocTypeInfo>, key: string): (r: seq<XmlDocTypeInfo>)
    ensures forall t :: t in r ==> t in ts && t.info.name.ns == key
  {
    if ts == [] then []
    else
      var last := ts[|ts| - 1];
      Contained(ts[..|ts| - 1], key) + (if last.info.name.ns == key then [last] else [])
  }

  lemma {:induction false} ContainedNone(ts: seq<XmlDocTypeInfo>, key: string)
    requires forall t :: t in ts ==> t.info.name.ns != key
    ensures Contained(ts, key) == []
  {
    if ts != [] {
      ContainedNone(ts[..|ts| - 1], key);
    }
  }

  lemma {:induction false} ContainedSnoc(ts: seq<XmlDocTypeInfo>, t: XmlDocTypeInfo, key: string)
    ensures Contained(ts + [t], key) == Contained(ts, key) + (if t.info.name.ns == key then [t] else [])
  {
    assert (ts + [t])[..|ts|] == ts;
  }

  /** Every type done so far points at the namespace with its key. */
  predicate NamespacesSet(nss: seq<XmlDocNamespaceInfo>, done: seq<XmlDocTypeInfo>)
    reads done
  {
    forall t :: t in done ==> t.ns != null && t.ns in nss && t.ns.Name() == t.info.name.ns
  }

  /** Each namespace lists exactly the types done so far that lie in it, in processing order. */
  predicate TypeListsExact(nss: seq<XmlDocNamespaceInfo>, done: seq<XmlDocTypeInfo>)
    reads nss
  {
    forall n :: n in nss ==> n.types == Contained(done, n.Name())
  }

  predicate NsLinked(nss: seq<XmlDocNamespaceInfo>, done: seq<XmlDocTypeInfo>)
    reads nss, done
  {
    NamespaceNamesDistinct(nss) && NamespacesSet(nss, done) && TypeListsExact(nss, done)
  }

  function FindNamespace(nss: seq<XmlDocNamespaceInfo>, key: string): (r: int)
    ensures -1 <= r < |nss|
    ensures r >= 0 ==> nss[r].Name() == key
    ensures r < 0 ==> forall n :: n in nss ==> n.Name() != key
  {
    if nss == [] then -1
    else if nss[|nss| - 1].Name() == key then |nss| - 1
    else FindNamespace(nss[..|nss| - 1], key)
  }

  /** The namespace lookup of the last loop, adding a made-up namespace when missing. */
  method GetNamespace(nss: seq<XmlDocNamespaceInfo>, t: XmlDocTypeInfo) returns (n: XmlDocNamespaceInfo, nss': seq<XmlDocNamespaceInfo>)
    ensures n in nss' && n.Name() == t.info.name.ns
    ensures n in nss ==> nss' == nss
    ensures n !in nss ==> (nss' == nss + [n] && fresh(n)
      && (forall u :: u in nss ==> u.Name() != n.Name())
      && n.info == SynthesisedNamespace(t.info.name.ns) && n.types == [])
  {
    var i := FindNamespace(nss, t.info.name.ns);
    if i >= 0 {
      n, nss' := nss[i], nss;
    } else {
      n := new XmlDocNamespaceInfo(SynthesisedNamespace(t.info.name.ns));
      nss' := nss + [n];
    }
  }

  /** value.Types.Add(m) */
  method AddToNamespace(nss: seq<XmlDocNamespaceInfo>, ghost done: seq<XmlDocTypeInfo>, n: XmlDocNamespaceInfo, t: XmlDocTypeInfo)
    requires n in nss && n.Name() == t.info.name.ns
    requires NamespaceNamesDistinct(nss) && TypeListsExact(nss, done)
    modifies n
    ensures TypeListsExact(nss, done + [t])
  {
    n.AddType(t);
    forall u | u in nss ensures u.types == Contained(done + [t], u.Name()) {
      ContainedSnoc(done, t, u.Name());
      if u != n {
        assert u.types == old(u.types);
      }
    }
  }

  /** m.Namespace = value */
  method SetNamespace(nss: seq<XmlDocNamespaceInfo>, ghost done: seq<XmlDocTypeInfo>, n: XmlDocNamespaceInfo, t: XmlDocTypeInfo)
    requires n in nss && n.Name() == t.info.name.ns
    requires NamespacesSet(nss, done)
    modifies t
    ensures NamespacesSet(nss, done + [t])
    ensures forall k :: t.MembersOf(k) == old(t.MembersOf(k))
  {
    t.ns := n;
    forall t' | t' in done + [t] ensures t'.ns != null && t'.ns in nss && t'.ns.Name() == t'.info.name.ns {
      if t' != t {
        assert t' in done && t'.ns == old(t'.ns);
      }
    }
  }

  /** One iteration of the last loop. */
  method PlaceType(nss: seq<XmlDocNamespaceInfo>, ghost done: seq<XmlDocTypeInfo>, t: XmlDocTypeInfo)
    returns (nss': seq<XmlDocNamespaceInfo>)
    requires NsLinked(nss, done)
    modifies t, set n | n in nss
    ensures NsLinked(nss', done + [t])
    ensures nss' == nss || (|nss'| == |nss| + 1 && nss'[..|nss|] == nss
      && fresh(nss'[|nss|]) && nss'[|nss|].info == SynthesisedNamespace(t.info.name.ns))
    ensures forall n :: n in nss' ==> n in nss || fresh(n)
    ensures forall k :: t.MembersOf(k) == old(t.MembersOf(k))
  {
    var n;
    n, nss' := GetNamespace(nss, t);
    if n !in nss {
      NamespaceAdded(nss, done, n);
    }
    AddToNamespace(nss', done, n, t);
    SetNamespace(nss', done, n, t);
  }

  /** Made-up namespaces, each for some type that needed it. */
  predicate NamespaceFor(n: XmlDocNamespaceInfo, ts: seq<XmlDocTypeInfo>)
  {
    exists t :: t in ts && n.info == SynthesisedNamespace(t.info.name.ns)
  }

  lemma {:induction false} NamespacesExtended(start: nat, previous: seq<XmlDocNamespaceInfo>, next: seq<XmlDocNamespaceInfo>,
                           types: seq<XmlDocTypeInfo>, i: nat)
    requires i < |types| && start <= |previous|
    requires forall j :: start <= j < |previous| ==> NamespaceFor(previous[j], types)
    requires next == previous || (|next| == |previous| + 1 && next[..|previous|] == previous
      && next[|previous|].info == SynthesisedNamespace(types[i].info.name.ns))
    ensures |previous| <= |next| && next[..|previous|] == previous
    ensures forall j :: start <= j < |next| ==> NamespaceFor(next[j], types)
  {
    forall j | start <= j < |next| ensures NamespaceFor(next[j], types) {
      if j < |previous| {
        assert next[j] == previous[j];
      } else {
        assert types[i] in types;
      }
    }
  }

  /** The last loop of the relation pass: put every type in its namespace. */
  method PlaceTypes(nss: seq<XmlDocNamespaceInfo>, types: seq<XmlDocTypeInfo>) returns (nss': seq<XmlDocNamespaceInfo>)
    requires NsLinked(nss, [])
    modifies set n | n in nss, set t | t in types
    ensures NsLinked(nss', types)
    ensures |nss| <= |nss'| && nss'[..|nss|] == nss
    ensures forall i :: |nss| <= i < |nss'| ==> NamespaceFor(nss'[i], types)
    ensures forall t, k :: t in types ==> t.MembersOf(k) == old(t.MembersOf(k))
  {
    nss' := nss;
    var i := 0;
    while i < |types|
      invariant 0 <= i <= |types|
      invariant NsLinked(nss', types[..i])
      invariant |nss| <= |nss'| && nss'[..|nss|] == nss
      invariant forall j :: |nss| <= j < |nss'| ==> NamespaceFor(nss'[j], types)
      invariant forall n :: n in nss' ==> n in nss || fresh(n)
      invariant forall t, k :: t in types ==> t.MembersOf(k) == old(t.MembersOf(k))
    {
      assert types[..i + 1] == types[..i] + [types[i]];
      ghost var previous := nss';
      nss' := PlaceType(nss', types[..i], types[i]);
      NamespacesExtended(|nss|, previous, nss', types, i);
      i := i + 1;
    }
    assert types[..i] == types;
  }

  /* Building the nodes */

  /** The nodes of one member kind (the Select(...).ToList() calls). */
  predicate MembersMatch(nodes: seq<XmlDocMemberInfo>, ds: seq<DerivedInfo>, k: MemberKind)
  {
    |nodes| == |ds| && forall i :: 0 <= i < |ds| ==> nodes[i].info == ds[i] && nodes[i].kind == k
  }

  method NewMembers(ds: seq<DerivedInfo>, k: MemberKind) returns (nodes: seq<XmlDocMemberInfo>)
    ensures MembersMatch(nodes, ds, k)
    ensures forall m :: m in nodes ==> fresh(m)
  {
    nodes := [];
    var i := 0;
    while i < |ds|
      invariant 0 <= i <= |ds|
      invariant MembersMatch(nodes, ds[..i], k)
      invariant forall m :: m in nodes ==> fresh(m)
    {
      var m := new XmlDocMemberInfo(ds[i], k);
      nodes := nodes + [m];
      i := i + 1;
    }
    assert ds[..i] == ds;
  }

  lemma {:induction false} DistinctSnoc(keys: seq<string>, key: string)
    requires Distinct(keys) && forall j :: 0 <= j < |keys| ==> keys[j] != key
    ensures Distinct(keys + [key])
  {
    var keys' := keys + [key];
    forall i, j | 0 <= i < j < |keys'| ensures keys'[i] != keys'[j] {
      assert keys'[i] == keys[i];
    }
  }

  /** A namespace whose key is new keeps the namespace keys distinct. */
  lemma {:induction false} NamespaceAdded(nss: seq<XmlDocNamespaceInfo>, done: seq<XmlDocTypeInfo>, n: XmlDocNamespaceInfo)
    requires NsLinked(nss, done) && forall u :: u in nss ==> u.Name() != n.Name()
    requires n.types == []
    ensures NsLinked(nss + [n], done)
  {
    var nss' := nss + [n];
    forall i, j | 0 <= i < j < |nss'| ensures nss'[i].Name() != nss'[j].Name() {
      assert nss'[i] == nss[i] && nss[i] in nss;
    }
    forall t' | t' in done ensures t'.info.name.ns != n.Name() {
      assert t'.ns in nss;
    }
    ContainedNone(done, n.Name());
  }

  /** The key of a record the namespace nodes so far do not have keeps the keys distinct. */
  lemma {:induction false} NamespaceKeysSnoc(ds: seq<DerivedInfo>, i: nat, nodes: seq<XmlDocNamespaceInfo>)
    requires i < |ds| && |nodes| == i && Distinct(NamespaceKeys(ds[..i]))
    requires forall j :: 0 <= j < i ==> nodes[j].info == ds[j]
    requires forall u :: u in nodes ==> u.Name() != ds[i].name.ns
    ensures Distinct(NamespaceKeys(ds[..i + 1]))
  {
    assert NamespaceKeys(ds[..i + 1]) == NamespaceKeys(ds[..i]) + [ds[i].name.ns];
    forall j | 0 <= j < i ensures NamespaceKeys(ds[..i])[j] != ds[i].name.ns {
      assert nodes[j] in nodes;
    }
    DistinctSnoc(NamespaceKeys(ds[..i]), ds[i].name.ns);
  }

  /** A type whose key is new keeps the type keys distinct. */
  lemma {:induction false} TypeNamesDistinctSnoc(nodes: seq<XmlDocTypeInfo>, t: XmlDocTypeInfo)
    requires TypeNamesDistinct(nodes) && forall u :: u in nodes ==> u.Name() != t.Name()
    ensures TypeNamesDistinct(nodes + [t])
  {
    var nodes' := nodes + [t];
    forall i, j | 0 <= i < j < |nodes'| ensures nodes'[i].Name() != nodes'[j].Name() {
      assert nodes'[i] == nodes[i] && nodes[i] in nodes;
    }
  }

  /** The key of a record the type nodes so far do not have keeps the keys distinct. */
  lemma {:induction false} TypeKeysSnoc(ds: seq<DerivedInfo>, i: nat, nodes: seq<XmlDocTypeInfo>)
    requires i < |ds| && |nodes| == i && Distinct(TypeKeys(ds[..i]))
    requires forall j :: 0 <= j < i ==> nodes[j].info == ds[j]
    requires forall u :: u in nodes ==> u.Name() != TypeKey(ds[i].name)
    ensures Distinct(TypeKeys(ds[..i + 1]))
  {
    assert TypeKeys(ds[..i + 1]) == TypeKeys(ds[..i]) + [TypeKey(ds[i].name)];
    forall j | 0 <= j < i ensures TypeKeys(ds[..i])[j] != TypeKey(ds[i].name) {
      assert nodes[j] in nodes;
    }
    DistinctSnoc(TypeKeys(ds[..i]), TypeKey(ds[i].name));
  }

  /** The namespace dictionary: ToDictionary throws on a repeated key. */
  method NewNamespaces(ds: seq<DerivedInfo>) returns (r: Result<seq<XmlDocNamespaceInfo>, Exception>)
    ensures r.Err? <==> !Distinct(NamespaceKeys(ds))
    ensures r.Err? ==> r.error == DuplicateKey
    ensures r.Ok? ==> (|r.value| == |ds| && NsLinked(r.value, [])
      && forall i :: 0 <= i < |ds| ==> fresh(r.value[i]) && r.value[i].info == ds[i])
  {
    var nodes: seq<XmlDocNamespaceInfo> := [];
    var i := 0;
    while i < |ds|
      invariant 0 <= i <= |ds|
      invariant |nodes| == i && NsLinked(nodes, [])
      invariant forall j :: 0 <= j < i ==> fresh(nodes[j]) && nodes[j].info == ds[j]
      invariant Distinct(NamespaceKeys(ds[..i]))
    {
      var found := FindNamespace(nodes, ds[i].name.ns);
      if found >= 0 {
        assert NamespaceKeys(ds)[found] == NamespaceKeys(ds)[i];
        return Err(DuplicateKey);
      }
      var n := new XmlDocNamespaceInfo(ds[i]);
      NamespaceAdded(nodes, [], n);
      NamespaceKeysSnoc(ds, i, nodes);
      nodes := nodes + [n];
      i := i + 1;
    }
    assert ds[..i] == ds;
    return Ok(nodes);
  }

  /** The type dictionary: ToDictionary throws on a repeated key. */
  method NewTypes(ds: seq<DerivedInfo>) returns (r: Result<seq<XmlDocTypeInfo>, Exception>)
    ensures r.Err? <==> !Distinct(TypeKeys(ds))
    ensures r.Err? ==> r.error == DuplicateKey
    ensures r.Ok? ==> (|r.value| == |ds| && Linked(r.value, [])
      && forall i :: 0 <= i < |ds| ==> fresh(r.value[i]) && r.value[i].info == ds[i] && r.value[i].ns == null)
  {
    var nodes: seq<XmlDocTypeInfo> := [];
    var i := 0;
    while i < |ds|
      invariant 0 <= i <= |ds|
      invariant |nodes| == i && TypeNamesDistinct(nodes)
      invariant forall j :: 0 <= j < i ==> fresh(nodes[j]) && nodes[j].info == ds[j] && nodes[j].ns == null
      invariant forall j, k :: 0 <= j < i ==> nodes[j].MembersOf(k) == []
      invariant Distinct(TypeKeys(ds[..i]))
    {
      var found := FindType(nodes, TypeKey(ds[i].name));
      if found >= 0 {
        assert TypeKeys(ds)[found] == TypeKeys(ds)[i];
        return Err(DuplicateKey);
      }
      var t := new XmlDocTypeInfo(ds[i]);
      TypeNamesDistinctSnoc(nodes, t);
      TypeKeysSnoc(ds, i, nodes);
      nodes := nodes + [t];
      i := i + 1;
    }
    assert ds[..i] == ds;
    assert MemberListsExact(nodes, []);
    return Ok(nodes);
  }

  /* The whole pass */

  /** The dictionaries and lists CreateMemberRelations ends with. */
  datatype Relations = Relations(
    namespaces: seq<XmlDocNamespaceInfo>,
    types: seq<XmlDocTypeInfo>,
    events: seq<XmlDocMemberInfo>,
    fields: seq<XmlDocMemberInfo>,
    properties: seq<XmlDocMemberInfo>,
    methods: seq<XmlDocMemberInfo>)
  {
    /** The members in the order the loops attach them. */
    function Members(): seq<XmlDocMemberInfo>
    {
      methods + properties + fields + events
    }

    /** The returned array: namespaces, types, events, fields, properties, methods. */
    function Flatten(): (r: seq<BaseInfo>)
      ensures |r| == |namespaces| + |types| + |events| + |fields| + |properties| + |methods|
    {
      seq(|namespaces|, i requires 0 <= i < |namespaces| => NamespaceNode(namespaces[i]))
      + seq(|types|, i requires 0 <= i < |types| => TypeNode(types[i]))
      + seq(|events|, i requires 0 <= i < |events| => MemberNode(events[i]))
      + seq(|fields|, i requires 0 <= i < |fields| => MemberNode(fields[i]))
      + seq(|properties|, i requires 0 <= i < |properties| => MemberNode(properties[i]))
      + seq(|methods|, i requires 0 <= i < |methods| => MemberNode(methods[i]))
    }
  }

  /**
   * What the relation pass guarantees about its result for the records ds:
   * one member node per method, property, field and event record, in order;
   * the documented types first, then the made-up ones, each needed by some
   * member; likewise the documented namespaces first; and the links between
   * them exact in both directions.
   */
  predicate Wired(rel: Relations, ds: seq<DerivedInfo>)
    reads rel.types, rel.Members(), rel.namespaces
  {
    var declaredTypes := OfKind(ds, Type);
    var declaredNamespaces := OfKind(ds, Namespace);
    MembersMatch(rel.methods, OfKind(ds, Method), MethodMember)
    && MembersMatch(rel.properties, OfKind(ds, Property), PropertyMember)
    && MembersMatch(rel.fields, OfKind(ds, Field), FieldMember)
    && MembersMatch(rel.events, OfKind(ds, Event), EventMember)
    && |declaredTypes| <= |rel.types|
    && (forall i :: 0 <= i < |declaredTypes| ==> rel.types[i].info == declaredTypes[i])
    && (forall i :: |declaredTypes| <= i < |rel.types| ==> SynthesisedFor(rel.types[i], rel.Members()))
    && |declaredNamespaces| <= |rel.namespaces|
    && (forall i :: 0 <= i < |declaredNamespaces| ==> rel.namespaces[i].info == declaredNamespaces[i])
    && (forall i :: |declaredNamespaces| <= i < |rel.namespaces| ==> NamespaceFor(rel.namespaces[i], rel.types))
    && Linked(rel.types, rel.Members())
    && NsLinked(rel.namespaces, rel.types)
  }

  /** The last loop, keeping the member links the first four made. */
  method Place(nss: seq<XmlDocNamespaceInfo>, types: seq<XmlDocTypeInfo>, ghost members: seq<XmlDocMemberInfo>)
    returns (nss': seq<XmlDocNamespaceInfo>)
    requires NsLinked(nss, []) && Linked(types, members)
    modifies set n | n in nss, set t | t in types
    ensures NsLinked(nss', types) && Linked(types, members)
    ensures |nss| <= |nss'| && nss'[..|nss|] == nss
    ensures forall i :: |nss| <= i < |nss'| ==> NamespaceFor(nss'[i], types)
  {
    nss' := PlaceTypes(nss, types);
    forall t, k | t in types ensures t.MembersOf(k) == Attached(members, k, t.Name()) {
      assert t.MembersOf(k) == old(t.MembersOf(k));
    }
  }

  /** The five loops of the relation pass over freshly built nodes. */
  method Wire(nss: seq<XmlDocNamespaceInfo>, types: seq<XmlDocTypeInfo>, events: seq<XmlDocMemberInfo>,
              fields: seq<XmlDocMemberInfo>, properties: seq<XmlDocMemberInfo>, methods: seq<XmlDocMemberInfo>)
    returns (rel: Relations)
    requires NsLinked(nss, []) && Linked(types, [])
    modifies set n | n in nss, set t | t in types, set m | m in methods, set m | m in properties,
      set m | m in fields, set m | m in events
    ensures rel.events == events && rel.fields == fields && rel.properties == properties && rel.methods == methods
    ensures |types| <= |rel.types| && rel.types[..|types|] == types
    ensures forall i :: |types| <= i < |rel.types| ==> SynthesisedFor(rel.types[i], rel.Members())
    ensures |nss| <= |rel.namespaces| && rel.namespaces[..|nss|] == nss
    ensures forall i :: |nss| <= i < |rel.namespaces| ==> NamespaceFor(rel.namespaces[i], rel.types)
    ensures Linked(rel.types, rel.Members()) && NsLinked(rel.namespaces, rel.types)
  {
    var linked := AttachAll(types, methods, properties, fields, events);
    var placed := Place(nss, linked, methods + properties + fields + events);
    rel := Relations(placed, linked, events, fields, properties, methods);
  }

  /**
   * CreateMemberRelations: fails exactly when two namespace records or two
   * type records share a key, and otherwise returns the wired nodes.
   */
  method CreateMemberRelations(ds: seq<DerivedInfo>) returns (r: Result<Relations, Exception>)
    ensures r.Err? <==> !Distinct(NamespaceKeys(OfKind(ds, Namespace))) || !Distinct(TypeKeys(OfKind(ds, Type)))
    ensures r.Err? ==> r.error == DuplicateKey
    ensures r.Ok? ==> Wired(r.value, ds)
  {
    var namespaces := NewNamespaces(OfKind(ds, Namespace));
    if namespaces.Err? {
      return Err(namespaces.error);
    }
    var declared := NewTypes(OfKind(ds, Type));
    if declared.Err? {
      return Err(declared.error);
    }
    var events := NewMembers(OfKind(ds, Event), EventMember);
    var fields := NewMembers(OfKind(ds, Field), FieldMember);
    var properties := NewMembers(OfKind(ds, Property), PropertyMember);
    var methods := NewMembers(OfKind(ds, Method), MethodMember);
    forall t | t in declared.value ensures fresh(t) {
      var i :| 0 <= i < |declared.value| && declared.value[i] == t;
    }
    forall n | n in namespaces.value ensures fresh(n) {
      var i :| 0 <= i < |namespaces.value| && namespaces.value[i] == n;
    }
    var rel := Wire(namespaces.value, declared.value, events, fields, properties, methods);
    return Ok(rel);
  }
}
