/**
 * DocsParser: the NuGet package walk that sorts archive entries into
 * documentation files and assemblies and pairs them by assembly name, and
 * DocumentationCombiner, which hangs the documentation nodes onto the
 * reflected nodes.
 *
 * The combiner looks every node up with the ID functions of XmlNames before
 * it writes anything: the lookups read only names, declaring types, generic
 * shapes and member lists, never a Documentation property, so computing
 * them first gives the values the source computes as it goes. The lookups
 * and the writes they lead to form a plan; the writes are then applied in
 * the source's order.
 */
module DocsParser {
  import opened Wrappers
  import opened Strings
  import opened Reflection
  import opened XmlInfo
  import opened XmlNames
  import PEParser

  /** One write of a Documentation property. */
  datatype Assignment =
    | SetNamespace(ns: NamespaceInfo, nsDoc: XmlDocNamespaceInfo?)
    | SetType(typ: TypeInfo, typeDoc: XmlDocTypeInfo?)
    | SetMember(member: MemberRef, memberDoc: XmlDocMemberInfo?)

  /** The writes the combiner makes, in order, and the exception that stops it, if any. */
  datatype Plan = Plan(assignments: seq<Assignment>, failure: Option<Exception>)

  /** The node a member reference stands for. */
  function MemberObject(m: MemberRef): object
  {
    match m
    case MethodRef(x) => x
    case ConstructorRef(x) => x
    case PropertyRef(x) => x
    case EventRef(x) => x
    case FieldRef(x) => x
  }

  /** The node whose Documentation an assignment writes. */
  function Node(a: Assignment): object
  {
    match a
    case SetNamespace(ns, _) => ns
    case SetType(t, _) => t
    case SetMember(m, _) => MemberObject(m)
  }

  /** The node of an assignment holds the value the assignment writes. */
  predicate Holds(a: Assignment)
    reads Node(a)
  {
    match a
    case SetNamespace(ns, d) => ns.documentation == d
    case SetType(t, d) => t.documentation == d
    case SetMember(m, d) =>
      match m
      case MethodRef(x) => x.documentation == d
      case ConstructorRef(x) => x.documentation == d
      case PropertyRef(x) => x.documentation == d
      case EventRef(x) => x.documentation == d
      case FieldRef(x) => x.documentation == d
  }

  /** No assignment after the i-th, up to n, writes the same node. */
  predicate LastWithin(plan: seq<Assignment>, i: nat, n: nat)
    requires i < n <= |plan|
  {
    forall j :: i < j < n ==> Node(plan[j]) != Node(plan[i])
  }

  function NamespaceTargets(plan: seq<Assignment>): set<NamespaceInfo>
  {
    set a | a in plan && a.SetNamespace? :: a.ns
  }

  function TypeTargets(plan: seq<Assignment>): set<TypeInfo>
  {
    set a | a in plan && a.SetType? :: a.typ
  }

  function MethodTargets(plan: seq<Assignment>): set<MethodInfo>
  {
    (set a | a in plan && a.SetMember? && a.member.MethodRef? :: a.member.methodInfo)
    + (set a | a in plan && a.SetMember? && a.member.ConstructorRef? :: a.member.ctor)
  }

  function PropertyTargets(plan: seq<Assignment>): set<PropertyInfo>
  {
    set a | a in plan && a.SetMember? && a.member.PropertyRef? :: a.member.property
  }

  function EventTargets(plan: seq<Assignment>): set<EventInfo>
  {
    set a | a in plan && a.SetMember? && a.member.EventRef? :: a.member.eventInfo
  }

  function FieldTargets(plan: seq<Assignment>): set<FieldInfo>
  {
    set a | a in plan && a.SetMember? && a.member.FieldRef? :: a.member.field
  }

  /** The n-th write: its node gets its value, and what every other node holds stays. */
  method Write(plan: seq<Assignment>, n: nat)
    requires n < |plan|
    modifies NamespaceTargets(plan)`documentation, TypeTargets(plan)`documentation
    modifies MethodTargets(plan)`documentation, PropertyTargets(plan)`documentation
    modifies EventTargets(plan)`documentation, FieldTargets(plan)`documentation
    ensures Holds(plan[n])
    ensures forall i :: 0 <= i < |plan| && Node(plan[i]) != Node(plan[n]) && old(Holds(plan[i])) ==> Holds(plan[i])
  {
    assert plan[n] in plan;
    match plan[n] {
      case SetNamespace(ns, d) => ns.documentation := d;
      case SetType(t, d) => t.documentation := d;
      case SetMember(m, d) =>
        match m {
          case MethodRef(x) => x.documentation := d;
          case ConstructorRef(x) => x.documentation := d;
          case PropertyRef(x) => x.documentation := d;
          case EventRef(x) => x.documentation := d;
          case FieldRef(x) => x.documentation := d;
        }
    }
  }

  /**
   * Performs the writes in order: afterwards every node holds the value of
   * the last write to it, and no other property of any node changes.
   */
  method Apply(plan: seq<Assignment>)
    modifies NamespaceTargets(plan)`documentation, TypeTargets(plan)`documentation
    modifies MethodTargets(plan)`documentation, PropertyTargets(plan)`documentation
    modifies EventTargets(plan)`documentation, FieldTargets(plan)`documentation
    ensures forall i :: 0 <= i < |plan| && LastWithin(plan, i, |plan|) ==> Holds(plan[i])
  {
    var n := 0;
    while n < |plan|
      invariant 0 <= n <= |plan|
      invariant forall i :: 0 <= i < n && LastWithin(plan, i, n) ==> Holds(plan[i])
    {
      Write(plan, n);
      forall i | 0 <= i < n + 1 && LastWithin(plan, i, n + 1) ensures Holds(plan[i]) {
        if i < n {
          assert LastWithin(plan, i, n) && Node(plan[n]) != Node(plan[i]);
        }
      }
      n := n + 1;
    }
  }

  /** Runs p and then, unless p failed, q. */
  function Then(p: Plan, q: Plan): (r: Plan)
    ensures p.failure.Some? ==> r == p
    ensures p.failure.None? ==> r.assignments == p.assignments + q.assignments && r.failure == q.failure
  {
    if p.failure.Some? then p else Plan(p.assignments + q.assignments, q.failure)
  }

  /** The namespace loop of Combine: ns.Documentation = documentation.Get(ns), one namespace after another. */
  function NamespacePlan(doc: XmlDocumentation, nss: seq<NamespaceInfo>): (r: Plan)
    reads nss
    ensures |r.assignments| <= |nss|
    ensures r.failure.None? ==> |r.assignments| == |nss|
    ensures forall i :: 0 <= i < |r.assignments| ==>
      (GetNamespace(Some(doc), nss[i]).Ok? && r.assignments[i] == SetNamespace(nss[i], NamespaceOrNull(GetNamespace(Some(doc), nss[i]).value)))
    ensures r.failure.Some? ==> |r.assignments| < |nss| && GetNamespace(Some(doc), nss[|r.assignments|]) == Err(r.failure.value)
  {
    if nss == [] then Plan([], None)
    else
      var g := GetNamespace(Some(doc), nss[0]);
      if g.Err? then Plan([], Some(g.error))
      else
        var rest := NamespacePlan(doc, nss[1..]);
        Plan([SetNamespace(nss[0], NamespaceOrNull(g.value))] + rest.assignments, rest.failure)
  }

  function NamespaceOrNull(o: Option<XmlDocNamespaceInfo>): (r: XmlDocNamespaceInfo?)
    ensures o.None? <==> r == null
    ensures o.Some? ==> r == o.value
  {
    if o.Some? then o.value else null
  }

  function TypeOrNull(o: Option<XmlDocTypeInfo>): (r: XmlDocTypeInfo?)
    ensures o.None? <==> r == null
    ensures o.Some? ==> r == o.value
  {
    if o.Some? then o.value else null
  }

  function MemberOrNull(o: Option<XmlDocMemberInfo>): (r: XmlDocMemberInfo?)
    ensures o.None? <==> r == null
    ensures o.Some? ==> r == o.value
  {
    if o.Some? then o.value else null
  }

  /** The members of a type in the order Combine visits them: methods, constructors, properties, events, fields. */
  function MemberRefs(t: TypeInfo): (r: seq<MemberRef>)
    reads t
    ensures |r| == |t.methods| + |t.constructors| + |t.properties| + |t.events| + |t.fields|
    ensures forall i :: 0 <= i < |t.methods| ==> r[i] == MethodRef(t.methods[i])
    ensures forall i :: 0 <= i < |t.constructors| ==> r[|t.methods| + i] == ConstructorRef(t.constructors[i])
  {
    (seq(|t.methods|, i requires 0 <= i < |t.methods| reads t => MethodRef(t.methods[i])))
    + (seq(|t.constructors|, i requires 0 <= i < |t.constructors| reads t => ConstructorRef(t.constructors[i])))
    + (seq(|t.properties|, i requires 0 <= i < |t.properties| reads t => PropertyRef(t.properties[i])))
    + (seq(|t.events|, i requires 0 <= i < |t.events| reads t => EventRef(t.events[i])))
    + (seq(|t.fields|, i requires 0 <= i < |t.fields| reads t => FieldRef(t.fields[i])))
  }

  /** The member loops of Combine for a documented type: member.Documentation = typeDoc.Get(member). */
  function MemberPlan(typeDoc: XmlDocTypeInfo, refs: seq<MemberRef>, fuel: nat): (r: Plan)
    reads *
    ensures |r.assignments| <= |refs|
    ensures r.failure.None? ==> |r.assignments| == |refs|
    ensures forall i :: 0 <= i < |r.assignments| ==>
      (GetTypeMember(typeDoc, Some(refs[i]), fuel).Ok?
       && r.assignments[i] == SetMember(refs[i], MemberOrNull(GetTypeMember(typeDoc, Some(refs[i]), fuel).value)))
    ensures r.failure.Some? ==> |r.assignments| < |refs| && GetTypeMember(typeDoc, Some(refs[|r.assignments|]), fuel) == Err(r.failure.value)
  {
    if refs == [] then Plan([], None)
    else
      var g := GetTypeMember(typeDoc, Some(refs[0]), fuel);
      if g.Err? then Plan([], Some(g.error))
      else
        var rest := MemberPlan(typeDoc, refs[1..], fuel);
        Plan([SetMember(refs[0], MemberOrNull(g.value))] + rest.assignments, rest.failure)
  }

  /**
   * One pass of the type loop: the type's own documentation, then, only
   * when there is some, its members looked up in that documentation.
   */
  function TypePlan(doc: XmlDocumentation, t: TypeInfo, fuel: nat): (r: Plan)
    reads *
  {
    var g := GetType(Some(doc), t, fuel);
    if g.Err? then Plan([], Some(g.error))
    else if g.value.None? then Plan([SetType(t, null)], None)
    else
      var m := MemberPlan(g.value.value, MemberRefs(t), fuel);
      Plan([SetType(t, g.value.value)] + m.assignments, m.failure)
  }

  /** The type loop of Combine. */
  function TypesPlan(doc: XmlDocumentation, ts: seq<TypeInfo>, fuel: nat): (r: Plan)
    reads *
  {
    if ts == [] then Plan([], None) else Then(TypePlan(doc, ts[0], fuel), TypesPlan(doc, ts[1..], fuel))
  }

  /** DocumentationCombiner.Combine as a plan: the namespace loop, then the type loop. */
  function CombinePlan(doc: XmlDocumentation, assembly: PEParser.ParsedAssembly, fuel: nat): (r: Plan)
    reads *
  {
    Then(NamespacePlan(doc, assembly.namespaces), TypesPlan(doc, assembly.types, fuel))
  }

  /**
   * A type the documentation lacks has its Documentation cleared and its
   * members left alone; a documented type has it set and then every member
   * looked up among that type's documented members of its kind.
   */
  lemma {:induction false} TypePlanWrites(doc: XmlDocumentation, t: TypeInfo, fuel: nat)
    ensures GetType(Some(doc), t, fuel).Err? ==> TypePlan(doc, t, fuel) == Plan([], Some(GetType(Some(doc), t, fuel).error))
    ensures GetType(Some(doc), t, fuel) == Ok(None) ==> TypePlan(doc, t, fuel) == Plan([SetType(t, null)], None)
    ensures GetType(Some(doc), t, fuel).Ok? && GetType(Some(doc), t, fuel).value.Some? ==>
      (var td := GetType(Some(doc), t, fuel).value.value;
       var p := TypePlan(doc, t, fuel);
       |p.assignments| >= 1 && p.assignments[0] == SetType(t, td)
       && TypeNode(td) in doc.members.value && TypeId(t, fuel) == Ok(td.Name())
       && forall i :: 1 <= i < |p.assignments| ==>
            (p.assignments[i].SetMember? && p.assignments[i].member == MemberRefs(t)[i - 1]
             && (p.assignments[i].memberDoc != null ==>
                   p.assignments[i].memberDoc in ListFor(td, p.assignments[i].member))))
  {
    var g := GetType(Some(doc), t, fuel);
    if g.Ok? && g.value.Some? {
      var m := MemberPlan(g.value.value, MemberRefs(t), fuel);
      forall i | 0 <= i < |m.assignments|
        ensures m.assignments[i].memberDoc != null ==> m.assignments[i].memberDoc in ListFor(g.value.value, m.assignments[i].member)
      {
        var x := GetTypeMember(g.value.value, Some(MemberRefs(t)[i]), fuel);
        assert x.Ok? && m.assignments[i] == SetMember(MemberRefs(t)[i], MemberOrNull(x.value));
      }
    }
  }

  /**
   * With no exception, the type loop writes every type of the list, and
   * each type's write carries what documentation.Get(type) finds.
   */
  lemma {:induction false} TypesPlanCovers(doc: XmlDocumentation, ts: seq<TypeInfo>, fuel: nat)
    ensures TypesPlan(doc, ts, fuel).failure.None? ==>
      forall k :: 0 <= k < |ts| ==>
        (GetType(Some(doc), ts[k], fuel).Ok?
         && SetType(ts[k], TypeOrNull(GetType(Some(doc), ts[k], fuel).value)) in TypesPlan(doc, ts, fuel).assignments)
  {
    if ts != [] {
      TypesPlanCovers(doc, ts[1..], fuel);
      TypePlanWrites(doc, ts[0], fuel);
      var p := TypesPlan(doc, ts, fuel);
      if p.failure.None? {
        var head := TypePlan(doc, ts[0], fuel);
        var tail := TypesPlan(doc, ts[1..], fuel);
        assert head.failure.None? && p.assignments == head.assignments + tail.assignments;
        forall k | 0 <= k < |ts|
          ensures GetType(Some(doc), ts[k], fuel).Ok?
          ensures SetType(ts[k], TypeOrNull(GetType(Some(doc), ts[k], fuel).value)) in p.assignments
        {
          if k == 0 {
            assert head.assignments[0] in p.assignments;
          } else {
            assert ts[k] == ts[1..][k - 1];
          }
        }
      }
    }
  }

  /**
   * DocumentationCombiner.Combine(documentation, assembly): every namespace,
   * then every type and, for a documented type, every member gets the
   * documentation node looked up for it. An exception stops the walk with
   * the writes before it made and returns that exception.
   */
  method Combine(doc: XmlDocumentation, assembly: PEParser.ParsedAssembly, fuel: nat) returns (failure: Option<Exception>)
    modifies NamespaceTargets(CombinePlan(doc, assembly, fuel).assignments)`documentation
    modifies TypeTargets(CombinePlan(doc, assembly, fuel).assignments)`documentation
    modifies MethodTargets(CombinePlan(doc, assembly, fuel).assignments)`documentation
    modifies PropertyTargets(CombinePlan(doc, assembly, fuel).assignments)`documentation
    modifies EventTargets(CombinePlan(doc, assembly, fuel).assignments)`documentation
    modifies FieldTargets(CombinePlan(doc, assembly, fuel).assignments)`documentation
    ensures failure == old(CombinePlan(doc, assembly, fuel)).failure
    ensures var plan := old(CombinePlan(doc, assembly, fuel)).assignments;
      forall i :: 0 <= i < |plan| && LastWithin(plan, i, |plan|) ==> Holds(plan[i])
  {
    var plan := CombinePlan(doc, assembly, fuel);
    Apply(plan.assignments);
    failure := plan.failure;
  }
}
