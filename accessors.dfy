/**
 * The accessor pass of DocsPEParser.Parse: property getters and setters and
 * event add and remove methods are moved out of a type's method list and
 * attached to the property or event they belong to. A plain accessor is
 * the first method of its name and is taken only when it is flagged
 * SpecialName; an indexer accessor is the first get_Item or set_Item whose
 * parameters agree with the index parameters on their common prefix.
 *
 * DocsTypeInfo.Equals, which decides whether two parameter types agree,
 * comes in as the relation same. It reads names, flags and links of type
 * nodes, none of which this pass writes.
 */
module Accessors {
  import opened Wrappers
  import opened Reflection
  import CodeReferences
  import MethodFlags

  /** The index of the first method named name, |ms| when there is none. */
  function FirstNamed(ms: seq<MethodInfo>, name: string): (r: nat)
    reads ms
    ensures r <= |ms|
    ensures r < |ms| ==> ms[r].name == Some(name)
    ensures forall j :: 0 <= j < r ==> ms[j].name != Some(name)
  {
    if ms == [] then 0
    else if ms[0].name == Some(name) then 0
    else 1 + FirstNamed(ms[1..], name)
  }

  /**
   * What RemoveSpecialMethod hands to its callback: the first method named
   * name when it is flagged SpecialName, null otherwise.
   */
  function SpecialAccessor(ms: seq<MethodInfo>, name: string): (r: MethodInfo?)
    reads ms
    ensures r != null ==> r in ms && r.name == Some(name) && r.IsSpecialName()
    ensures r == null && FirstNamed(ms, name) < |ms| ==> !ms[FirstNamed(ms, name)].IsSpecialName()
  {
    var i := FirstNamed(ms, name);
    if i < |ms| && ms[i].IsSpecialName() then ms[i] else null
  }

  /** The index of the first occurrence of m, |ms| when m is absent. */
  function IndexOf(ms: seq<MethodInfo>, m: MethodInfo): (r: nat)
    ensures r <= |ms|
    ensures r < |ms| <==> m in ms
    ensures r < |ms| ==> ms[r] == m
    ensures forall j :: 0 <= j < r ==> ms[j] != m
  {
    if ms == [] then 0
    else if ms[0] == m then 0
    else 1 + IndexOf(ms[1..], m)
  }

  /** List.Remove: the list without the first occurrence of m, unchanged when m is absent. */
  function Without(ms: seq<MethodInfo>, m: MethodInfo): (r: seq<MethodInfo>)
    ensures m !in ms ==> r == ms
  {
    var i := IndexOf(ms, m);
    if i < |ms| then ms[..i] + ms[i + 1..] else ms
  }

  /** List.Remove drops one occurrence of a present node and nothing else. */
  lemma WithoutMultiset(ms: seq<MethodInfo>, m: MethodInfo)
    ensures m in ms ==> |Without(ms, m)| == |ms| - 1 && multiset(Without(ms, m)) == multiset(ms) - multiset{m}
  {
    var i := IndexOf(ms, m);
    if i < |ms| {
      assert ms == ms[..i] + [m] + ms[i + 1..];
    }
  }

  /** a keeps some of the elements of b, in their order. */
  predicate Subsequence(a: seq<MethodInfo>, b: seq<MethodInfo>)
    decreases |b|
  {
    a == [] || (b != [] && ((a[0] == b[0] && Subsequence(a[1..], b[1..])) || Subsequence(a, b[1..])))
  }

  /**
   * DocsPEParser.ParametersEquals: Zip and All over the parameter types,
   * so only the common prefix is compared, and the first disagreement ends
   * the walk. A null parameter type on the left throws when it is reached;
   * one on the right never equals (Equals(null) is false).
   */
  function ParametersEquals(lhs: seq<ParameterInfo>, rhs: seq<ParameterInfo>, same: (TypeInfo, TypeInfo) -> bool): (r: Result<bool, Exception>)
    reads set p | p in lhs, set p | p in rhs
    decreases |lhs|
    ensures r == Ok(true) <==> forall i :: 0 <= i < |lhs| && i < |rhs| ==> Agree(lhs[i], rhs[i], same)
    ensures r.Err? ==> r.error == NullReference
    ensures r.Err? ==> exists i :: 0 <= i < |lhs| && i < |rhs| && lhs[i].parameterType == null
  {
    if lhs == [] || rhs == [] then Ok(true)
    else if lhs[0].parameterType == null then Err(NullReference)
    else if !Agree(lhs[0], rhs[0], same) then Ok(false)
    else
      var rest := ParametersEquals(lhs[1..], rhs[1..], same);
      assert forall i :: 1 <= i < |lhs| && i < |rhs| ==> lhs[i] == lhs[1..][i - 1] && rhs[i] == rhs[1..][i - 1];
      rest
  }

  /** The types of parameters that all have one. */
  function ParameterTypes(ps: seq<ParameterInfo>): (r: seq<TypeInfo>)
    reads set p | p in ps
    requires forall i :: 0 <= i < |ps| ==> ps[i].parameterType != null
    ensures |r| == |ps| && forall i :: 0 <= i < |ps| ==> r[i] == ps[i].parameterType
  {
    seq(|ps|, i reads set p | p in ps requires 0 <= i < |ps| && ps[i].parameterType != null => ps[i].parameterType as TypeInfo)
  }

  /**
   * When every parameter has a type and same decides the pairs as the
   * bounded DocsTypeInfo.Equals does, ParametersEquals is the list
   * comparison of the type lists, the one DocsTypeInfo.CompareTypes makes
   * of generic arguments (and so, through EqualsWithinAgrees, Equals pair
   * by pair on a ranked graph).
   */
  lemma {:induction false} ParametersEqualsIsZip(lhs: seq<ParameterInfo>, rhs: seq<ParameterInfo>, same: (TypeInfo, TypeInfo) -> bool, fuel: nat)
    requires forall i :: 0 <= i < |lhs| ==> lhs[i].parameterType != null
    requires forall i :: 0 <= i < |rhs| ==> rhs[i].parameterType != null
    requires forall i :: 0 <= i < |lhs| && i < |rhs| ==>
      EqualsWithin(lhs[i].parameterType, rhs[i].parameterType, fuel) == Ok(same(lhs[i].parameterType, rhs[i].parameterType))
    ensures ParametersEquals(lhs, rhs, same) == ZipEqualsWithin(ParameterTypes(lhs), ParameterTypes(rhs), fuel)
    decreases |lhs|
  {
    if lhs != [] && rhs != [] {
      ParametersEqualsIsZip(lhs[1..], rhs[1..], same, fuel);
      assert ParameterTypes(lhs)[1..] == ParameterTypes(lhs[1..]);
      assert ParameterTypes(rhs)[1..] == ParameterTypes(rhs[1..]);
    }
  }

  /** Two parameters whose types are both set and Equals. */
  predicate Agree(a: ParameterInfo, b: ParameterInfo, same: (TypeInfo, TypeInfo) -> bool)
    reads a, b
  {
    a.parameterType != null && b.parameterType != null && same(a.parameterType, b.parameterType)
  }

  /**
   * FirstOrDefault(m => m.Name == name && ParametersEquals(m.Parameters, ip)):
   * the index of the first method that has the name and whose parameters
   * agree, |ms| when none does; the comparison of a same-named method that
   * throws ends the search with that exception.
   */
  function FirstMatching(ms: seq<MethodInfo>, name: string, ip: seq<ParameterInfo>, same: (TypeInfo, TypeInfo) -> bool): (r: Result<nat, Exception>)
    reads set m | m in ms, set m, p | m in ms && p in m.parameters :: p, set p | p in ip
    ensures r.Ok? ==> r.value <= |ms|
    ensures r.Ok? && r.value < |ms| ==> ms[r.value].name == Some(name) && ParametersEquals(ms[r.value].parameters, ip, same) == Ok(true)
    ensures r.Ok? ==> forall j :: 0 <= j < r.value && ms[j].name == Some(name) ==> ParametersEquals(ms[j].parameters, ip, same) == Ok(false)
    ensures r.Err? ==> exists j :: 0 <= j < |ms| && ms[j].name == Some(name) && ParametersEquals(ms[j].parameters, ip, same).Err?
    ensures r.Err? ==> r.error == NullReference
  {
    if ms == [] then Ok(0)
    else if ms[0].name != Some(name) then
      var rest := FirstMatching(ms[1..], name, ip, same);
      if rest.Err? then rest else Ok(1 + rest.value)
    else
      var eq := ParametersEquals(ms[0].parameters, ip, same);
      if eq.Err? then Err(eq.error)
      else if eq.value then Ok(0)
      else
        var rest := FirstMatching(ms[1..], name, ip, same);
        if rest.Err? then rest else Ok(1 + rest.value)
  }

  /** The node at an index FirstMatching gave, null for the end of the list. */
  function At(ms: seq<MethodInfo>, i: nat): (r: MethodInfo?)
    ensures i < |ms| ==> r == ms[i]
    ensures i >= |ms| ==> r == null
  {
    if i < |ms| then ms[i] else null
  }

  /**
   * The names a method the property pass removes may carry for property p:
   * an indexer's get_Item or set_Item, or a SpecialName get_ or set_
   * method named after p.
   */
  predicate PropertyAccessorName(m: MethodInfo, property: Option<string>)
    reads m
  {
    m.name == Some("get_Item") || m.name == Some("set_Item")
    || ((m.name == Some("get_" + CodeReferences.Str(property)) || m.name == Some("set_" + CodeReferences.Str(property)))
        && m.IsSpecialName())
  }

  /** The accessor names a removed method may carry for event e. */
  predicate EventAccessorName(m: MethodInfo, event: Option<string>)
    reads m
  {
    (m.name == Some("add_" + CodeReferences.Str(event)) || m.name == Some("remove_" + CodeReferences.Str(event)))
    && m.IsSpecialName()
  }

  /** Removing a method named otherwise leaves the first method of a name where it was. */
  lemma {:induction false} FirstNamedWithout(ms: seq<MethodInfo>, m: MethodInfo, name: string)
    requires m.name != Some(name)
    ensures SpecialAccessor(Without(ms, m), name) == SpecialAccessor(ms, name)
  {
    var i := IndexOf(ms, m);
    if i < |ms| {
      var w := ms[..i] + ms[i + 1..];
      var f := FirstNamed(ms, name);
      if f < i {
        FirstNamedPrefix(w, ms, name, f, i);
      } else if f < |ms| {
        FirstNamedShift(w, ms, name, f, i);
      } else {
        FirstNamedShift(w, ms, name, f, i);
      }
    }
  }

  /** The first match lies before the removed slot: nothing before it moved. */
  lemma {:induction false} FirstNamedPrefix(w: seq<MethodInfo>, ms: seq<MethodInfo>, name: string, f: nat, i: nat)
    requires i < |ms| && w == ms[..i] + ms[i + 1..] && f == FirstNamed(ms, name) && f < i
    ensures FirstNamed(w, name) == f
  {
    assert forall j :: 0 <= j < i ==> w[j] == ms[j];
  }

  /** The first match lies after the removed slot (or nowhere): it moves down by one. */
  lemma {:induction false} FirstNamedShift(w: seq<MethodInfo>, ms: seq<MethodInfo>, name: string, f: nat, i: nat)
    requires i < |ms| && w == ms[..i] + ms[i + 1..] && f == FirstNamed(ms, name) && f >= i
    requires ms[i].name != Some(name)
    ensures f < |ms| ==> f > i && FirstNamed(w, name) == f - 1
    ensures f == |ms| ==> FirstNamed(w, name) == |w|
  {
    assert forall j :: 0 <= j < i ==> w[j] == ms[j];
    assert forall j :: i <= j < |w| ==> w[j] == ms[j + 1];
    var g := FirstNamed(w, name);
    assert g < |w| ==> w[g] == ms[if g < i then g else g + 1];
    assert f < |ms| ==> f > i && w[f - 1] == ms[f];
  }

  /**
   * The first method of a name is also the first occurrence of that node,
   * so List.Remove takes exactly that slot: RemoveSpecialMethod drops the
   * slot of the method it hands back and keeps the rest in order.
   */
  lemma {:induction false} RemoveFirstNamed(ms: seq<MethodInfo>, name: string)
    requires FirstNamed(ms, name) < |ms|
    ensures var i := FirstNamed(ms, name); Without(ms, ms[i]) == ms[..i] + ms[i + 1..]
  {
    var i := FirstNamed(ms, name);
    assert IndexOf(ms, ms[i]) == i;
  }

  /** List.Remove keeps the order of what it leaves. */
  lemma {:induction false} WithoutSubsequence(ms: seq<MethodInfo>, m: MethodInfo)
    ensures Subsequence(Without(ms, m), ms)
  {
    var i := IndexOf(ms, m);
    if i < |ms| {
      SkipOneSubsequence(ms, i);
    } else {
      SubsequenceReflexive(ms);
    }
  }

  lemma {:induction false} SubsequenceReflexive(a: seq<MethodInfo>)
    ensures Subsequence(a, a)
    decreases |a|
  {
    if a != [] {
      SubsequenceReflexive(a[1..]);
    }
  }

  /** Dropping one slot leaves a subsequence. */
  lemma {:induction false} SkipOneSubsequence(ms: seq<MethodInfo>, i: nat)
    requires i < |ms|
    ensures Subsequence(ms[..i] + ms[i + 1..], ms)
    decreases i
  {
    var w := ms[..i] + ms[i + 1..];
    if i == 0 {
      assert w == ms[1..];
      SubsequenceReflexive(ms[1..]);
    } else {
      SkipOneSubsequence(ms[1..], i - 1);
      assert ms[1..][..i - 1] + ms[1..][i..] == w[1..];
      assert w[0] == ms[0];
    }
  }

  /** A subsequence of a subsequence is a subsequence. */
  lemma {:induction false} SubsequenceTransitive(a: seq<MethodInfo>, b: seq<MethodInfo>, c: seq<MethodInfo>)
    requires Subsequence(a, b) && Subsequence(b, c)
    ensures Subsequence(a, c)
    decreases |c|
  {
    if a == [] {
    } else if a[0] == b[0] && Subsequence(a[1..], b[1..]) {
      if b[0] == c[0] && Subsequence(b[1..], c[1..]) {
        SubsequenceTransitive(a[1..], b[1..], c[1..]);
      } else {
        SubsequenceTransitive(a, b, c[1..]);
      }
    } else {
      if b[0] == c[0] && Subsequence(b[1..], c[1..]) {
        SubsequenceTransitive(a, b[1..], c[1..]);
      } else {
        SubsequenceTransitive(a, b, c[1..]);
      }
    }
  }

  /** The elements of a subsequence come from the longer list. */
  lemma {:induction false} SubsequenceMembers(a: seq<MethodInfo>, b: seq<MethodInfo>)
    requires Subsequence(a, b)
    ensures forall m :: m in a ==> m in b
    decreases |b|
  {
    if a != [] {
      if a[0] == b[0] && Subsequence(a[1..], b[1..]) {
        SubsequenceMembers(a[1..], b[1..]);
        assert forall m :: m in a ==> m == a[0] || m in a[1..];
      } else {
        SubsequenceMembers(a, b[1..]);
      }
    }
  }
  /** The list without m, or the list itself when m is null. */
  function WithoutIf(ms: seq<MethodInfo>, m: MethodInfo?): (r: seq<MethodInfo>)
    ensures m == null ==> r == ms
    ensures m != null ==> r == Without(ms, m)
  {
    if m == null then ms else Without(ms, m)
  }

  /**
   * DocsPEParser.RemoveSpecialMethod: the first method named name, when it is
   * flagged SpecialName, leaves the method list and is handed back for the
   * callback to attach; otherwise nothing changes and null comes back.
   */
  method RemoveSpecialMethod(t: TypeInfo, name: string) returns (taken: MethodInfo?)
    modifies t`methods
    ensures taken == old(SpecialAccessor(t.methods, name))
    ensures t.methods == WithoutIf(old(t.methods), taken)
  {
    taken := SpecialAccessor(t.methods, name);
    if taken != null {
      t.methods := Without(t.methods, taken);
    }
  }

  /**
   * Two RemoveSpecialMethod calls in a row for two different names: since
   * the first one only removes a method of the first name, both accessors
   * are found as in the list before either call.
   */
  method RemoveSpecialPair(t: TypeInfo, first: string, second: string) returns (a: MethodInfo?, b: MethodInfo?)
    requires first != second
    modifies t`methods
    ensures a == old(SpecialAccessor(t.methods, first))
    ensures b == old(SpecialAccessor(t.methods, second))
    ensures t.methods == WithoutIf(WithoutIf(old(t.methods), a), b)
  {
    ghost var before := t.methods;
    a := RemoveSpecialMethod(t, first);
    if a != null {
      FirstNamedWithout(before, a, second);
    }
    b := RemoveSpecialMethod(t, second);
  }

  /**
   * The else branch of RemovePropertyMethods for a property without index
   * parameters: get_Name and set_Name, each the first method of its name
   * in the list the pass started from, are attached and removed when they
   * are SpecialName; a missing one leaves the accessor as it was.
   */
  method MergePlainProperty(t: TypeInfo, p: PropertyInfo)
    modifies t`methods, p`getMethod, p`setMethod
    ensures var getter := old(SpecialAccessor(t.methods, "get_" + CodeReferences.Str(p.name)));
      var setter := old(SpecialAccessor(t.methods, "set_" + CodeReferences.Str(p.name)));
      p.getMethod == (if getter != null then getter else old(p.getMethod))
      && p.setMethod == (if setter != null then setter else old(p.setMethod))
      && t.methods == WithoutIf(WithoutIf(old(t.methods), getter), setter)
  {
    var getName := "get_" + CodeReferences.Str(p.name);
    var setName := "set_" + CodeReferences.Str(p.name);
    assert getName[0] != setName[0];
    var getter, setter := RemoveSpecialPair(t, getName, setName);
    if getter != null {
      p.getMethod := getter;
    }
    if setter != null {
      p.setMethod := setter;
    }
  }

  /**
   * The indexer branch of RemovePropertyMethods: get_Item and set_Item are
   * the first methods of those names whose parameters agree with the index
   * parameters, both looked up in the list before either is removed, with
   * no SpecialName test. Both accessors are overwritten (with null when
   * missing) and removed; the index parameters become the getter's
   * parameters, else the setter's first as many as there were. A throwing
   * comparison while looking up the setter leaves the getter attached.
   */
  method MergeIndexer(t: TypeInfo, p: PropertyInfo, same: (TypeInfo, TypeInfo) -> bool) returns (r: Result<(), Exception>)
    requires p.indexParameters.Some?
    modifies t`methods, p`getMethod, p`setMethod, p`indexParameters
    ensures var ms := old(t.methods); var ip := old(p.indexParameters.value);
      var g := old(FirstMatching(t.methods, "get_Item", p.indexParameters.value, same));
      var s := old(FirstMatching(t.methods, "set_Item", p.indexParameters.value, same));
      (g.Err? ==> r == Err(g.error) && t.methods == ms && p.getMethod == old(p.getMethod))
      && (g.Ok? && s.Err? ==> r == Err(s.error) && t.methods == ms && p.getMethod == At(ms, g.value))
      && (g.Err? || s.Err? ==> p.setMethod == old(p.setMethod) && p.indexParameters == old(p.indexParameters))
      && (g.Ok? && s.Ok? ==>
            (var getter := At(ms, g.value); var setter := At(ms, s.value);
             r.Ok? && p.getMethod == getter && p.setMethod == setter
             && t.methods == WithoutIf(WithoutIf(ms, getter), setter)
             && p.indexParameters
                == (if getter != null then Some(getter.parameters)
                    else if setter != null then Some(setter.parameters[..Min(|ip|, |setter.parameters|)])
                    else Some(ip))))
  {
    var ip := p.indexParameters.value;
    var g := FirstMatching(t.methods, "get_Item", ip, same);
    if g.Err? {
      return Err(g.error);
    }
    p.getMethod := At(t.methods, g.value);
    var s := FirstMatching(t.methods, "set_Item", ip, same);
    if s.Err? {
      return Err(s.error);
    }
    p.setMethod := At(t.methods, s.value);
    if p.getMethod != null {
      t.methods := Without(t.methods, p.getMethod);
    }
    if p.setMethod != null {
      t.methods := Without(t.methods, p.setMethod);
    }
    if p.getMethod != null {
      p.indexParameters := Some(p.getMethod.parameters);
    }
    if p.getMethod == null && p.setMethod != null {
      p.indexParameters := Some(p.setMethod.parameters[..Min(|ip|, |p.setMethod.parameters|)]);
    }
    r := Ok(());
  }

  function Min(a: nat, b: nat): nat
  {
    if a < b then a else b
  }

  /**
   * DocsPEParser.RemoveEventMethods for one event: add_Name and
   * remove_Name, each the first method of its name in the list the pass
   * started from, are attached and removed when they are SpecialName.
   */
  method MergeEvent(t: TypeInfo, e: EventInfo)
    modifies t`methods, e`addMethod, e`removeMethod
    ensures var adder := old(SpecialAccessor(t.methods, "add_" + CodeReferences.Str(e.name)));
      var remover := old(SpecialAccessor(t.methods, "remove_" + CodeReferences.Str(e.name)));
      e.addMethod == (if adder != null then adder else old(e.addMethod))
      && e.removeMethod == (if remover != null then remover else old(e.removeMethod))
      && t.methods == WithoutIf(WithoutIf(old(t.methods), adder), remover)
  {
    var addName := "add_" + CodeReferences.Str(e.name);
    var removeName := "remove_" + CodeReferences.Str(e.name);
    assert addName[0] != removeName[0];
    var adder, remover := RemoveSpecialPair(t, addName, removeName);
    if adder != null {
      e.addMethod := adder;
    }
    if remover != null {
      e.removeMethod := remover;
    }
  }

  /** Removing up to two nodes keeps the order of the rest and removes nothing else. */
  lemma {:induction false} WithoutIfPair(ms: seq<MethodInfo>, a: MethodInfo?, b: MethodInfo?)
    ensures Subsequence(WithoutIf(WithoutIf(ms, a), b), ms)
    ensures forall m :: m in ms && m !in WithoutIf(WithoutIf(ms, a), b) ==> m == a || m == b
  {
    var w := WithoutIf(ms, a);
    if a != null {
      WithoutSubsequence(ms, a);
    } else {
      SubsequenceReflexive(ms);
    }
    if b != null {
      WithoutSubsequence(w, b);
    } else {
      SubsequenceReflexive(w);
    }
    SubsequenceTransitive(WithoutIf(w, b), w, ms);
    forall m | m in ms && m != a && m != b
      ensures m in WithoutIf(w, b)
    {
      WithoutIfKeeps(ms, a, m);
      WithoutIfKeeps(w, b, m);
    }
  }

  /** Removing one node keeps every other node. */
  lemma {:induction false} WithoutIfKeeps(ms: seq<MethodInfo>, a: MethodInfo?, m: MethodInfo)
    requires m in ms && m != a
    ensures m in WithoutIf(ms, a)
  {
    if a != null && a in ms {
      WithoutMultiset(ms, a);
      assert multiset(Without(ms, a))[m] == multiset(ms)[m];
    }
  }

  /** Removing two different nodes takes one occurrence of each out of the list. */
  lemma WithoutIfPairCount(ms: seq<MethodInfo>, a: MethodInfo?, b: MethodInfo?)
    requires a != b
    ensures a != null && a in ms ==> multiset(WithoutIf(WithoutIf(ms, a), b))[a] == multiset(ms)[a] - 1
    ensures b != null && b in ms ==> multiset(WithoutIf(WithoutIf(ms, a), b))[b] == multiset(ms)[b] - 1
  {
    var w := WithoutIf(ms, a);
    if a != null {
      WithoutMultiset(ms, a);
    }
    if b != null {
      WithoutMultiset(w, b);
      if b in ms {
        WithoutIfKeeps(ms, a, b);
      }
    }
  }

  /** What the accessor passes read of a method node: its name, its attributes and its parameters. */
  datatype MethodKey = MethodKey(name: Option<string>, attributes: bv32, parameters: seq<ParameterInfo>)

  /** The key of m in a snapshot, a nameless key when the snapshot lacks m. */
  function KeyOf(keys: map<MethodInfo, MethodKey>, m: MethodInfo): MethodKey
  {
    if m in keys then keys[m] else MethodKey(None, 0, [])
  }

  /** keys gives every node of ms its current name, attributes and parameters. */
  predicate KeysCurrent(ms: seq<MethodInfo>, keys: map<MethodInfo, MethodKey>)
    reads ms`name, ms`attributes, ms`parameters
  {
    forall m :: m in ms ==> m in keys && keys[m] == MethodKey(m.name, m.attributes, m.parameters)
  }

  /** The keys of the nodes of ms as they are now. */
  function KeysOf(ms: seq<MethodInfo>): (r: map<MethodInfo, MethodKey>)
    reads ms`name, ms`attributes, ms`parameters
    ensures KeysCurrent(ms, r)
  {
    map m | m in ms :: MethodKey(m.name, m.attributes, m.parameters)
  }

  /** FirstNamed on a snapshot of the keys. */
  function FirstNamedIn(ms: seq<MethodInfo>, keys: map<MethodInfo, MethodKey>, name: string): (r: nat)
    ensures r <= |ms|
    ensures r < |ms| ==> KeyOf(keys, ms[r]).name == Some(name)
  {
    if ms == [] then 0
    else if KeyOf(keys, ms[0]).name == Some(name) then 0
    else 1 + FirstNamedIn(ms[1..], keys, name)
  }

  /** SpecialAccessor on a snapshot of the keys. */
  function SpecialAccessorIn(ms: seq<MethodInfo>, keys: map<MethodInfo, MethodKey>, name: string): (r: MethodInfo?)
    ensures r != null ==> r in ms && KeyOf(keys, r).name == Some(name) && MethodFlags.IsSpecialName(KeyOf(keys, r).attributes)
  {
    var i := FirstNamedIn(ms, keys, name);
    if i < |ms| && MethodFlags.IsSpecialName(KeyOf(keys, ms[i]).attributes) then ms[i] else null
  }

  /** On keys that are current, the snapshot finds the method the nodes give. */
  lemma {:induction false} FirstNamedInAgrees(ms: seq<MethodInfo>, keys: map<MethodInfo, MethodKey>, name: string)
    requires KeysCurrent(ms, keys)
    ensures FirstNamedIn(ms, keys, name) == FirstNamed(ms, name)
    decreases |ms|
  {
    if ms != [] {
      assert ms[0] in ms;
      assert KeysCurrent(ms[1..], keys) by {
        forall m | m in ms[1..] ensures m in ms { }
      }
      FirstNamedInAgrees(ms[1..], keys, name);
    }
  }

  /** On keys that are current, the snapshot answers as the method nodes do. */
  lemma {:induction false} SpecialAccessorInAgrees(ms: seq<MethodInfo>, keys: map<MethodInfo, MethodKey>, name: string)
    requires KeysCurrent(ms, keys)
    ensures SpecialAccessorIn(ms, keys, name) == SpecialAccessor(ms, name)
  {
    FirstNamedInAgrees(ms, keys, name);
    var i := FirstNamed(ms, name);
    if i < |ms| {
      assert ms[i] in ms;
    }
  }

  /** An event's add and remove accessors, as values. */
  datatype EventAccessors = EventAccessors(addMethod: MethodInfo?, removeMethod: MethodInfo?)

  /**
   * What the event pass writes: the method list and each event's accessors.
   * The names and attributes of the method nodes, which it reads and does
   * not change, are a separate snapshot of keys.
   */
  datatype EventState = EventState(methods: seq<MethodInfo>, accessors: map<EventInfo, EventAccessors>)

  /** The accessors of e in s, none when s does not know e. */
  function AccessorsOf(s: EventState, e: EventInfo): EventAccessors
  {
    if e in s.accessors then s.accessors[e] else EventAccessors(null, null)
  }

  /** The event state of a type before the pass. */
  function InitialEvents(t: TypeInfo): (r: EventState)
    reads t`methods, t`events, t.events`addMethod, t.events`removeMethod
    ensures r.methods == t.methods
    ensures forall e :: e in t.events ==> AccessorsOf(r, e) == EventAccessors(e.addMethod, e.removeMethod)
  {
    EventState(t.methods, map e | e in t.events :: EventAccessors(e.addMethod, e.removeMethod))
  }

  /**
   * One event of RemoveEventMethods on state values: add_Name and
   * remove_Name, each the first of its name in the list before either is
   * removed, replace the event's accessors when they are SpecialName and
   * leave the list; every other event keeps its accessors.
   */
  function EventStep(s: EventState, keys: map<MethodInfo, MethodKey>, e: EventInfo, name: Option<string>): EventState
  {
    var adder := SpecialAccessorIn(s.methods, keys, "add_" + CodeReferences.Str(name));
    var remover := SpecialAccessorIn(s.methods, keys, "remove_" + CodeReferences.Str(name));
    var acc := AccessorsOf(s, e);
    EventState(
      WithoutIf(WithoutIf(s.methods, adder), remover),
      s.accessors[e := EventAccessors(
        if adder != null then adder else acc.addMethod,
        if remover != null then remover else acc.removeMethod)])
  }

  /** The names of the events, in order. */
  function EventNames(es: seq<EventInfo>): (r: seq<Option<string>>)
    reads es`name
    ensures |r| == |es| && forall i :: 0 <= i < |es| ==> r[i] == es[i].name
  {
    if es == [] then [] else [es[0].name] + EventNames(es[1..])
  }

  /**
   * The event pass over the first n events of es, one EventStep per event
   * in order, names[i] being the name of es[i]. It reads no object: the
   * names and attributes of the method nodes come from keys.
   */
  function EventPass(s0: EventState, keys: map<MethodInfo, MethodKey>, es: seq<EventInfo>, names: seq<Option<string>>, n: nat): EventState
    requires n <= |es| == |names|
  {
    if n == 0 then s0
    else EventStep(EventPass(s0, keys, es, names, n - 1), keys, es[n - 1], names[n - 1])
  }

  /** The outcome of RemoveEventMethods, computed from the type as it is before the pass. */
  function EventPassOf(t: TypeInfo): EventState
    reads t`methods, t`events, t.events`name, t.events`addMethod, t.events`removeMethod
    reads t.methods`name, t.methods`attributes, t.methods`parameters
  {
    EventPass(InitialEvents(t), KeysOf(t.methods), t.events, EventNames(t.events), |t.events|)
  }

  /** EventAccessorName on a key of the snapshot. */
  predicate KeyAccessorName(k: MethodKey, event: Option<string>)
  {
    (k.name == Some("add_" + CodeReferences.Str(event)) || k.name == Some("remove_" + CodeReferences.Str(event)))
    && MethodFlags.IsSpecialName(k.attributes)
  }

  /**
   * One step only takes methods out of the list and keeps the order of the
   * rest, and what it takes out is a SpecialName add_ or remove_ method of
   * the event.
   */
  lemma EventStepShrinks(s: EventState, keys: map<MethodInfo, MethodKey>, e: EventInfo, name: Option<string>)
    ensures Subsequence(EventStep(s, keys, e, name).methods, s.methods)
    ensures forall m :: m in s.methods && m !in EventStep(s, keys, e, name).methods ==> KeyAccessorName(KeyOf(keys, m), name)
  {
    var adder := SpecialAccessorIn(s.methods, keys, "add_" + CodeReferences.Str(name));
    var remover := SpecialAccessorIn(s.methods, keys, "remove_" + CodeReferences.Str(name));
    WithoutIfPair(s.methods, adder, remover);
  }

  /**
   * A present accessor is moved: when the first method named add_Name (or
   * remove_Name) in the list is SpecialName, it becomes the event's add
   * (remove) accessor and one occurrence of it leaves the list; when there
   * is none, the accessor stays as it was.
   */
  lemma EventStepMoves(s: EventState, keys: map<MethodInfo, MethodKey>, e: EventInfo, name: Option<string>)
    ensures var adder := SpecialAccessorIn(s.methods, keys, "add_" + CodeReferences.Str(name));
      var r := EventStep(s, keys, e, name);
      (adder != null ==> AccessorsOf(r, e).addMethod == adder && multiset(r.methods)[adder] == multiset(s.methods)[adder] - 1)
      && (adder == null ==> AccessorsOf(r, e).addMethod == AccessorsOf(s, e).addMethod)
    ensures var remover := SpecialAccessorIn(s.methods, keys, "remove_" + CodeReferences.Str(name));
      var r := EventStep(s, keys, e, name);
      (remover != null ==> AccessorsOf(r, e).removeMethod == remover && multiset(r.methods)[remover] == multiset(s.methods)[remover] - 1)
      && (remover == null ==> AccessorsOf(r, e).removeMethod == AccessorsOf(s, e).removeMethod)
    ensures forall other :: other != e ==> AccessorsOf(EventStep(s, keys, e, name), other) == AccessorsOf(s, other)
  {
    var addName := "add_" + CodeReferences.Str(name);
    var removeName := "remove_" + CodeReferences.Str(name);
    var adder := SpecialAccessorIn(s.methods, keys, addName);
    var remover := SpecialAccessorIn(s.methods, keys, removeName);
    assert addName[0] != removeName[0];
    assert adder != null && remover != null ==> adder != remover;
    if adder != remover {
      WithoutIfPairCount(s.methods, adder, remover);
    }
  }

  /** The pass only takes methods out of the list and keeps the order of the rest. */
  lemma {:induction false} EventPassShrinks(s0: EventState, keys: map<MethodInfo, MethodKey>, es: seq<EventInfo>, names: seq<Option<string>>, n: nat)
    requires n <= |es| == |names|
    ensures Subsequence(EventPass(s0, keys, es, names, n).methods, s0.methods)
  {
    if n == 0 {
      SubsequenceReflexive(s0.methods);
    } else {
      EventPassShrinks(s0, keys, es, names, n - 1);
      var s := EventPass(s0, keys, es, names, n - 1);
      EventStepShrinks(s, keys, es[n - 1], names[n - 1]);
      SubsequenceTransitive(EventStep(s, keys, es[n - 1], names[n - 1]).methods, s.methods, s0.methods);
    }
  }

  /**
   * What the event pass removes: the key of each method that left the list
   * is that of a SpecialName add_ or remove_ method named after one of the
   * first n events.
   */
  lemma {:induction false} EventPassRemoves(s0: EventState, keys: map<MethodInfo, MethodKey>, es: seq<EventInfo>, names: seq<Option<string>>, n: nat)
    requires n <= |es| == |names|
    ensures forall m :: m in s0.methods && m !in EventPass(s0, keys, es, names, n).methods ==>
      exists k :: 0 <= k < n && KeyAccessorName(KeyOf(keys, m), names[k])
  {
    if n > 0 {
      EventPassRemoves(s0, keys, es, names, n - 1);
      var s := EventPass(s0, keys, es, names, n - 1);
      EventStepShrinks(s, keys, es[n - 1], names[n - 1]);
      forall m | m in s0.methods && m !in EventPass(s0, keys, es, names, n).methods
        ensures exists k :: 0 <= k < n && KeyAccessorName(KeyOf(keys, m), names[k])
      {
        if m in s.methods {
          assert KeyAccessorName(KeyOf(keys, m), names[n - 1]);
        } else {
          var k :| 0 <= k < n - 1 && KeyAccessorName(KeyOf(keys, m), names[k]);
          assert KeyAccessorName(KeyOf(keys, m), names[k]);
        }
      }
    }
  }

  /** On keys that are current, what the keys say of a removed method its node says too. */
  lemma KeysNameRemoved(ms0: seq<MethodInfo>, ms: seq<MethodInfo>, keys: map<MethodInfo, MethodKey>, es: seq<EventInfo>, names: seq<Option<string>>)
    requires KeysCurrent(ms0, keys) && |names| == |es| && forall j :: 0 <= j < |es| ==> es[j].name == names[j]
    requires forall m :: m in ms0 && m !in ms ==> exists k :: 0 <= k < |es| && KeyAccessorName(KeyOf(keys, m), names[k])
    ensures forall m :: m in ms0 && m !in ms ==> exists k :: 0 <= k < |es| && EventAccessorName(m, es[k].name)
  {
    forall m | m in ms0 && m !in ms
      ensures exists k :: 0 <= k < |es| && EventAccessorName(m, es[k].name)
    {
      var k :| 0 <= k < |es| && KeyAccessorName(KeyOf(keys, m), names[k]);
      assert EventAccessorName(m, es[k].name);
    }
  }

  /**
   * What the whole event pass does to the method list: it keeps the order of
   * what stays, and each method it takes out is a SpecialName add_ or
   * remove_ method of one of the events.
   */
  lemma EventPassEffects(trace: seq<EventState>, keys: map<MethodInfo, MethodKey>, es: seq<EventInfo>, names: seq<Option<string>>)
    requires |names| == |es| && forall j :: 0 <= j < |es| ==> es[j].name == names[j]
    requires |trace| == |es| + 1 && trace == EventTrace(trace[0], keys, es, names, |es|)
    requires KeysCurrent(trace[0].methods, keys)
    ensures Subsequence(trace[|es|].methods, trace[0].methods)
    ensures forall m :: m in trace[0].methods && m !in trace[|es|].methods ==> exists k :: 0 <= k < |es| && EventAccessorName(m, es[k].name)
  {
    EventPassShrinks(trace[0], keys, es, names, |es|);
    EventPassRemoves(trace[0], keys, es, names, |es|);
    KeysNameRemoved(trace[0].methods, trace[|es|].methods, keys, es, names);
  }

  /** The method list of t and the accessors of the events es are those of s. */
  predicate Reflects(t: TypeInfo, es: seq<EventInfo>, s: EventState)
    reads t`methods, es`addMethod, es`removeMethod
  {
    t.methods == s.methods
    && forall j :: 0 <= j < |es| ==> EventAccessors(es[j].addMethod, es[j].removeMethod) == AccessorsOf(s, es[j])
  }

  /**
   * MergeEvent is one EventStep: when the method list and the accessors of
   * the events es are those of s, and keys are the names and attributes of
   * the methods in the list, MergeEvent on e makes them those of EventStep.
   */
  method MergeEventStep(t: TypeInfo, e: EventInfo, ghost es: seq<EventInfo>, ghost s: EventState, ghost keys: map<MethodInfo, MethodKey>)
    requires KeysCurrent(s.methods, keys) && Reflects(t, es, s)
    modifies t`methods, e`addMethod, e`removeMethod
    ensures Reflects(t, es, EventStep(s, keys, e, e.name))
  {
    SpecialAccessorInAgrees(s.methods, keys, "add_" + CodeReferences.Str(e.name));
    SpecialAccessorInAgrees(s.methods, keys, "remove_" + CodeReferences.Str(e.name));
    MergeEvent(t, e);
  }

  /**
   * The states the event pass goes through over the first n events of es:
   * the pass over each prefix, from s0 to EventPass over all n.
   */
  function EventTrace(s0: EventState, keys: map<MethodInfo, MethodKey>, es: seq<EventInfo>, names: seq<Option<string>>, n: nat): (r: seq<EventState>)
    requires n <= |es| == |names|
    ensures |r| == n + 1 && forall i :: 0 <= i <= n ==> r[i] == EventPass(s0, keys, es, names, i)
  {
    seq(n + 1, i requires 0 <= i <= n => EventPass(s0, keys, es, names, i))
  }

  /** Each state of the trace after the first is EventStep of the one before. */
  lemma EventTraceSteps(s0: EventState, keys: map<MethodInfo, MethodKey>, es: seq<EventInfo>, names: seq<Option<string>>, n: nat)
    requires n <= |es| == |names|
    ensures var r := EventTrace(s0, keys, es, names, n);
      forall i :: 0 <= i < n ==> r[i + 1] == EventStep(r[i], keys, es[i], names[i])
  {
    var r := EventTrace(s0, keys, es, names, n);
    forall i | 0 <= i < n
      ensures r[i + 1] == EventStep(r[i], keys, es[i], names[i])
    {
      assert r[i] == EventPass(s0, keys, es, names, i);
      assert r[i + 1] == EventPass(s0, keys, es, names, i + 1);
    }
  }

  /**
   * The loop of RemoveEventMethods: MergeEvent on each event of es in
   * order, which takes the method list and the accessors of the events
   * through the states of trace, from the first to the last.
   */
  method MergeEventTrace(t: TypeInfo, es: seq<EventInfo>, ghost trace: seq<EventState>, ghost keys: map<MethodInfo, MethodKey>, ghost names: seq<Option<string>>)
    requires |names| == |es| && forall j :: 0 <= j < |es| ==> es[j].name == names[j]
    requires |trace| == |es| + 1 && forall i :: 0 <= i < |es| ==> trace[i + 1] == EventStep(trace[i], keys, es[i], names[i])
    requires KeysCurrent(trace[0].methods, keys) && Reflects(t, es, trace[0])
    modifies t`methods, es`addMethod, es`removeMethod
    ensures Reflects(t, es, trace[|es|]) && KeysCurrent(trace[0].methods, keys)
  {
    for i := 0 to |es|
      invariant KeysCurrent(trace[i].methods, keys) && Reflects(t, es, trace[i])
      invariant KeysCurrent(trace[0].methods, keys)
    {
      MergeEventStep(t, es[i], es, trace[i], keys);
      EventStepShrinks(trace[i], keys, es[i], names[i]);
      SubsequenceMembers(trace[i + 1].methods, trace[i].methods);
    }
  }

  /**
   * The whole event pass along its trace: the method list and the
   * accessors end as the last state of the trace, methods only leave the
   * list, and each method that left carries an accessor name of one of
   * the events.
   */
  method MergeEvents(t: TypeInfo, es: seq<EventInfo>, ghost trace: seq<EventState>, ghost keys: map<MethodInfo, MethodKey>, ghost names: seq<Option<string>>)
    requires |names| == |es| && forall j :: 0 <= j < |es| ==> es[j].name == names[j]
    requires |trace| == |es| + 1 && trace == EventTrace(trace[0], keys, es, names, |es|)
    requires KeysCurrent(trace[0].methods, keys) && Reflects(t, es, trace[0])
    modifies t`methods, es`addMethod, es`removeMethod
    ensures Reflects(t, es, trace[|es|])
    ensures Subsequence(t.methods, trace[0].methods)
    ensures forall m :: m in trace[0].methods && m !in t.methods ==> exists k :: 0 <= k < |es| && EventAccessorName(m, es[k].name)
  {
    EventTraceSteps(trace[0], keys, es, names, |es|);
    MergeEventTrace(t, es, trace, keys, names);
    EventPassEffects(trace, keys, es, names);
  }

  /**
   * DocsPEParser.RemoveEventMethods: MergeEvent for each event in turn.
   * The method list and every event's accessors end as EventPass computes
   * them from the state before the pass. Methods only leave the list, the
   * rest keep their order, and each method that left is a SpecialName add_
   * or remove_ method of some event.
   */
  method RemoveEventMethods(t: TypeInfo)
    modifies t`methods, t.events`addMethod, t.events`removeMethod
    ensures Reflects(t, t.events, old(EventPassOf(t)))
    ensures Subsequence(t.methods, old(t.methods))
    ensures forall m :: m in old(t.methods) && m !in t.methods ==>
      exists k :: 0 <= k < |t.events| && EventAccessorName(m, t.events[k].name)
  {
    var es := t.events;
    ghost var init := InitialEvents(t);
    ghost var keys := KeysOf(t.methods);
    ghost var names := EventNames(es);
    ghost var trace := EventTrace(init, keys, es, names, |es|);
    assert trace[|es|] == EventPassOf(t) && trace[0] == init;
    MergeEvents(t, es, trace, keys, names);
    assert old(t.methods) == init.methods && t.events == es;
  }

  /** The type of parameter q in a snapshot, null when the snapshot lacks q. */
  function TypeOf(ptypes: map<ParameterInfo, TypeInfo?>, q: ParameterInfo): TypeInfo?
  {
    if q in ptypes then ptypes[q] else null
  }

  /** ptypes gives every parameter node it holds its current type. */
  predicate TypesCurrent(ptypes: map<ParameterInfo, TypeInfo?>)
    reads ptypes.Keys`parameterType
  {
    forall q :: q in ptypes ==> ptypes[q] == q.parameterType
  }

  /** Agree on a snapshot of the parameter types. */
  predicate AgreeIn(a: ParameterInfo, b: ParameterInfo, ptypes: map<ParameterInfo, TypeInfo?>, same: (TypeInfo, TypeInfo) -> bool)
  {
    TypeOf(ptypes, a) != null && TypeOf(ptypes, b) != null && same(TypeOf(ptypes, a), TypeOf(ptypes, b))
  }

  /** ParametersEquals on a snapshot of the parameter types. */
  function ParametersEqualsIn(lhs: seq<ParameterInfo>, rhs: seq<ParameterInfo>, ptypes: map<ParameterInfo, TypeInfo?>, same: (TypeInfo, TypeInfo) -> bool): Result<bool, Exception>
    decreases |lhs|
  {
    if lhs == [] || rhs == [] then Ok(true)
    else if TypeOf(ptypes, lhs[0]) == null then Err(NullReference)
    else if !AgreeIn(lhs[0], rhs[0], ptypes, same) then Ok(false)
    else ParametersEqualsIn(lhs[1..], rhs[1..], ptypes, same)
  }

  /** On types that are current, the snapshot compares as the parameter nodes do. */
  lemma {:induction false} ParametersEqualsInAgrees(lhs: seq<ParameterInfo>, rhs: seq<ParameterInfo>, ptypes: map<ParameterInfo, TypeInfo?>, same: (TypeInfo, TypeInfo) -> bool)
    requires TypesCurrent(ptypes) && (forall q :: q in lhs ==> q in ptypes) && (forall q :: q in rhs ==> q in ptypes)
    ensures ParametersEqualsIn(lhs, rhs, ptypes, same) == ParametersEquals(lhs, rhs, same)
    decreases |lhs|
  {
    if lhs != [] && rhs != [] {
      assert lhs[0] in lhs && rhs[0] in rhs;
      assert forall q :: q in lhs[1..] ==> q in lhs;
      assert forall q :: q in rhs[1..] ==> q in rhs;
      ParametersEqualsInAgrees(lhs[1..], rhs[1..], ptypes, same);
    }
  }

  /** Every method of ms has a key, and every parameter of it a type, in the snapshot. */
  predicate Covered(ms: seq<MethodInfo>, keys: map<MethodInfo, MethodKey>, ptypes: map<ParameterInfo, TypeInfo?>)
  {
    forall m :: m in ms ==> m in keys && forall q :: q in keys[m].parameters ==> q in ptypes
  }

  /** FirstMatching on a snapshot of the keys and the parameter types. */
  function FirstMatchingIn(ms: seq<MethodInfo>, keys: map<MethodInfo, MethodKey>, ptypes: map<ParameterInfo, TypeInfo?>, name: string, ip: seq<ParameterInfo>, same: (TypeInfo, TypeInfo) -> bool): (r: Result<nat, Exception>)
    ensures r.Ok? ==> r.value <= |ms|
    ensures r.Ok? && r.value < |ms| ==> KeyOf(keys, ms[r.value]).name == Some(name)
  {
    if ms == [] then Ok(0)
    else if KeyOf(keys, ms[0]).name != Some(name) then
      var rest := FirstMatchingIn(ms[1..], keys, ptypes, name, ip, same);
      if rest.Err? then rest else Ok(1 + rest.value)
    else
      var eq := ParametersEqualsIn(KeyOf(keys, ms[0]).parameters, ip, ptypes, same);
      if eq.Err? then Err(eq.error)
      else if eq.value then Ok(0)
      else
        var rest := FirstMatchingIn(ms[1..], keys, ptypes, name, ip, same);
        if rest.Err? then rest else Ok(1 + rest.value)
  }

  /** On a current snapshot that covers the list, FirstMatchingIn finds what FirstMatching finds. */
  lemma {:induction false} FirstMatchingInAgrees(ms: seq<MethodInfo>, keys: map<MethodInfo, MethodKey>, ptypes: map<ParameterInfo, TypeInfo?>, name: string, ip: seq<ParameterInfo>, same: (TypeInfo, TypeInfo) -> bool)
    requires KeysCurrent(ms, keys) && TypesCurrent(ptypes) && Covered(ms, keys, ptypes)
    requires forall q :: q in ip ==> q in ptypes
    ensures FirstMatchingIn(ms, keys, ptypes, name, ip, same) == FirstMatching(ms, name, ip, same)
    decreases |ms|
  {
    if ms != [] {
      assert ms[0] in ms;
      assert KeysCurrent(ms[1..], keys) && Covered(ms[1..], keys, ptypes) by {
        forall m | m in ms[1..] ensures m in ms { }
      }
      ParametersEqualsInAgrees(ms[0].parameters, ip, ptypes, same);
      FirstMatchingInAgrees(ms[1..], keys, ptypes, name, ip, same);
    }
  }

  /** A property's getter, setter and index parameters, as values. */
  datatype PropertyAccessors = PropertyAccessors(getMethod: MethodInfo?, setMethod: MethodInfo?, indexParameters: Option<seq<ParameterInfo>>)

  /**
   * What the property pass writes: the method list and each property's
   * accessors; stopped once a comparison has thrown, which ends the pass.
   */
  datatype PropertyState = PropertyState(methods: seq<MethodInfo>, accessors: map<PropertyInfo, PropertyAccessors>, stopped: bool)

  /** The accessors of p in s, none when s does not know p. */
  function PropertyAccessorsOf(s: PropertyState, p: PropertyInfo): PropertyAccessors
  {
    if p in s.accessors then s.accessors[p] else PropertyAccessors(null, null, None)
  }

  /**
   * One property of RemovePropertyMethods on state values: IndexerStep for
   * a property with index parameters, whose get_Item and set_Item lookups
   * both search the list before either is removed, PlainStep otherwise.
   * Every other property keeps its accessors.
   */
  function PropertyStep(s: PropertyState, keys: map<MethodInfo, MethodKey>, ptypes: map<ParameterInfo, TypeInfo?>, p: PropertyInfo, name: Option<string>, same: (TypeInfo, TypeInfo) -> bool): PropertyState
  {
    var acc := PropertyAccessorsOf(s, p);
    if acc.indexParameters.Some? then
      IndexerStep(s, keys, p,
        FirstMatchingIn(s.methods, keys, ptypes, "get_Item", acc.indexParameters.value, same),
        FirstMatchingIn(s.methods, keys, ptypes, "set_Item", acc.indexParameters.value, same))
    else PlainStep(s, keys, p, name)
  }

  /**
   * An indexer given its two lookups g and st: a throwing lookup stops the
   * pass; the list loses what IndexerMethods takes out and the property
   * gets IndexerAccessors.
   */
  function IndexerStep(s: PropertyState, keys: map<MethodInfo, MethodKey>, p: PropertyInfo, g: Result<nat, Exception>, st: Result<nat, Exception>): PropertyState
    requires PropertyAccessorsOf(s, p).indexParameters.Some?
  {
    PropertyState(
      IndexerMethods(s.methods, g, st),
      s.accessors[p := IndexerAccessors(PropertyAccessorsOf(s, p), s.methods, keys, g, st)],
      g.Err? || st.Err?)
  }

  /** Both found methods leave the list; after a throwing lookup nothing does. */
  function IndexerMethods(ms: seq<MethodInfo>, g: Result<nat, Exception>, st: Result<nat, Exception>): seq<MethodInfo>
  {
    if g.Err? || st.Err? then ms
    else WithoutIf(WithoutIf(ms, At(ms, g.value)), At(ms, st.value))
  }

  /**
   * The accessors an indexer ends with: unchanged when the getter lookup
   * threw, only the getter set when the setter lookup threw; otherwise
   * both found methods, or null, and the index parameters become the
   * getter's parameters, else the setter's first as many.
   */
  function IndexerAccessors(acc: PropertyAccessors, ms: seq<MethodInfo>, keys: map<MethodInfo, MethodKey>, g: Result<nat, Exception>, st: Result<nat, Exception>): PropertyAccessors
    requires acc.indexParameters.Some?
  {
    var ip := acc.indexParameters.value;
    if g.Err? then acc
    else
      var getter := At(ms, g.value);
      if st.Err? then acc.(getMethod := getter)
      else
        var setter := At(ms, st.value);
        var params :=
          if getter != null then Some(KeyOf(keys, getter).parameters)
          else if setter != null then Some(KeyOf(keys, setter).parameters[..Min(|ip|, |KeyOf(keys, setter).parameters|)])
          else Some(ip);
        PropertyAccessors(getter, setter, params)
  }

  /**
   * A property without index parameters: the SpecialName get_Name and
   * set_Name move as in EventStep, a missing one leaving its accessor as
   * it was.
   */
  function PlainStep(s: PropertyState, keys: map<MethodInfo, MethodKey>, p: PropertyInfo, name: Option<string>): PropertyState
  {
    var acc := PropertyAccessorsOf(s, p);
    var ms := s.methods;
    var getter := SpecialAccessorIn(ms, keys, "get_" + CodeReferences.Str(name));
    var setter := SpecialAccessorIn(ms, keys, "set_" + CodeReferences.Str(name));
    PropertyState(
      WithoutIf(WithoutIf(ms, getter), setter),
      s.accessors[p := PropertyAccessors(
        if getter != null then getter else acc.getMethod,
        if setter != null then setter else acc.setMethod,
        acc.indexParameters)],
      false)
  }

  /**
   * A present accessor of a plain property is moved: when the first method
   * named get_Name (or set_Name) is SpecialName it becomes the getter
   * (setter) and one occurrence of it leaves the list; otherwise the
   * accessor stays. The index parameters and every other property are
   * left alone, and the pass goes on.
   */
  lemma PlainStepMoves(s: PropertyState, keys: map<MethodInfo, MethodKey>, p: PropertyInfo, name: Option<string>)
    ensures var getter := SpecialAccessorIn(s.methods, keys, "get_" + CodeReferences.Str(name));
      var r := PlainStep(s, keys, p, name);
      (getter != null ==> PropertyAccessorsOf(r, p).getMethod == getter && multiset(r.methods)[getter] == multiset(s.methods)[getter] - 1)
      && (getter == null ==> PropertyAccessorsOf(r, p).getMethod == PropertyAccessorsOf(s, p).getMethod)
    ensures var setter := SpecialAccessorIn(s.methods, keys, "set_" + CodeReferences.Str(name));
      var r := PlainStep(s, keys, p, name);
      (setter != null ==> PropertyAccessorsOf(r, p).setMethod == setter && multiset(r.methods)[setter] == multiset(s.methods)[setter] - 1)
      && (setter == null ==> PropertyAccessorsOf(r, p).setMethod == PropertyAccessorsOf(s, p).setMethod)
    ensures var r := PlainStep(s, keys, p, name);
      !r.stopped && PropertyAccessorsOf(r, p).indexParameters == PropertyAccessorsOf(s, p).indexParameters
    ensures forall other :: other != p ==> PropertyAccessorsOf(PlainStep(s, keys, p, name), other) == PropertyAccessorsOf(s, other)
  {
    var getName := "get_" + CodeReferences.Str(name);
    var setName := "set_" + CodeReferences.Str(name);
    var getter := SpecialAccessorIn(s.methods, keys, getName);
    var setter := SpecialAccessorIn(s.methods, keys, setName);
    assert getName[0] != setName[0];
    assert getter != null && setter != null ==> getter != setter;
    if getter != setter {
      WithoutIfPairCount(s.methods, getter, setter);
    }
  }

  /**
   * An indexer given its get_Item and set_Item lookups (FirstMatchingIn
   * finds only methods of those names): a found getter (setter) becomes
   * the property's and one occurrence of it leaves the list; a lookup that
   * throws stops the pass with the list as it was. Every other property is
   * left alone.
   */
  lemma IndexerStepMoves(s: PropertyState, keys: map<MethodInfo, MethodKey>, p: PropertyInfo, g: Result<nat, Exception>, st: Result<nat, Exception>)
    requires PropertyAccessorsOf(s, p).indexParameters.Some?
    requires g.Ok? && g.value < |s.methods| ==> KeyOf(keys, s.methods[g.value]).name == Some("get_Item")
    requires st.Ok? && st.value < |s.methods| ==> KeyOf(keys, s.methods[st.value]).name == Some("set_Item")
    ensures var r := IndexerStep(s, keys, p, g, st);
      (g.Err? || st.Err? ==> r.stopped && r.methods == s.methods)
      && (g.Ok? && st.Ok? ==>
            (var getter := At(s.methods, g.value); var setter := At(s.methods, st.value);
             !r.stopped
             && PropertyAccessorsOf(r, p).getMethod == getter && PropertyAccessorsOf(r, p).setMethod == setter
             && (getter != null ==> multiset(r.methods)[getter] == multiset(s.methods)[getter] - 1)
             && (setter != null ==> multiset(r.methods)[setter] == multiset(s.methods)[setter] - 1)))
    ensures forall other :: other != p ==> PropertyAccessorsOf(IndexerStep(s, keys, p, g, st), other) == PropertyAccessorsOf(s, other)
  {
    if g.Ok? && st.Ok? {
      var getter := At(s.methods, g.value);
      var setter := At(s.methods, st.value);
      if getter != null && setter != null {
        assert "get_Item"[0] != "set_Item"[0];
        assert getter != setter;
      }
      if getter != setter {
        WithoutIfPairCount(s.methods, getter, setter);
      }
    }
  }

  /** PropertyStep unless the pass has stopped. */
  function PropertyAdvance(s: PropertyState, keys: map<MethodInfo, MethodKey>, ptypes: map<ParameterInfo, TypeInfo?>, p: PropertyInfo, name: Option<string>, same: (TypeInfo, TypeInfo) -> bool): PropertyState
  {
    if s.stopped then s else PropertyStep(s, keys, ptypes, p, name, same)
  }

  /** The names of the properties, in order. */
  function PropertyNames(ps: seq<PropertyInfo>): (r: seq<Option<string>>)
    reads ps`name
    ensures |r| == |ps| && forall i :: 0 <= i < |ps| ==> r[i] == ps[i].name
  {
    if ps == [] then [] else [ps[0].name] + PropertyNames(ps[1..])
  }

  /** The property pass over the first n properties of ps, stopping at the first throw. */
  function PropertyPass(s0: PropertyState, keys: map<MethodInfo, MethodKey>, ptypes: map<ParameterInfo, TypeInfo?>, ps: seq<PropertyInfo>, names: seq<Option<string>>, same: (TypeInfo, TypeInfo) -> bool, n: nat): PropertyState
    requires n <= |ps| == |names|
  {
    if n == 0 then s0
    else PropertyAdvance(PropertyPass(s0, keys, ptypes, ps, names, same, n - 1), keys, ptypes, ps[n - 1], names[n - 1], same)
  }

  /** The parameter nodes the property pass may compare: those of the methods and the index parameters. */
  function PassParameters(t: TypeInfo): set<ParameterInfo>
    reads t`methods, t`properties, t.methods`parameters, t.properties`indexParameters
  {
    (set m, q | m in t.methods && q in m.parameters :: q)
    + (set p, q | p in t.properties && p.indexParameters.Some? && q in p.indexParameters.value :: q)
  }

  /** The types of the parameter nodes qs as they are now. */
  function TypesOf(qs: set<ParameterInfo>): (r: map<ParameterInfo, TypeInfo?>)
    reads qs`parameterType
    ensures TypesCurrent(r) && r.Keys == qs
  {
    map q | q in qs :: q.parameterType
  }

  /** The property state of a type before the pass. */
  function InitialProperties(t: TypeInfo): (r: PropertyState)
    reads t`methods, t`properties, t.properties`getMethod, t.properties`setMethod, t.properties`indexParameters
    ensures r.methods == t.methods && !r.stopped
    ensures forall p :: p in t.properties ==> PropertyAccessorsOf(r, p) == PropertyAccessors(p.getMethod, p.setMethod, p.indexParameters)
  {
    PropertyState(t.methods, map p | p in t.properties :: PropertyAccessors(p.getMethod, p.setMethod, p.indexParameters), false)
  }

  /** The outcome of RemovePropertyMethods, computed from the type as it is before the pass. */
  function PropertyPassOf(t: TypeInfo, same: (TypeInfo, TypeInfo) -> bool): PropertyState
    reads t`methods, t`properties, t.properties`name, t.properties`getMethod, t.properties`setMethod, t.properties`indexParameters
    reads t.methods`name, t.methods`attributes, t.methods`parameters, PassParameters(t)`parameterType
  {
    PropertyPass(InitialProperties(t), KeysOf(t.methods), TypesOf(PassParameters(t)), t.properties, PropertyNames(t.properties), same, |t.properties|)
  }

  /**
   * The snapshot covers s: every method in the list has a key whose
   * parameters have types, and so do the index parameters of every property.
   */
  predicate StateCovered(s: PropertyState, keys: map<MethodInfo, MethodKey>, ptypes: map<ParameterInfo, TypeInfo?>)
  {
    Covered(s.methods, keys, ptypes)
    && forall p :: p in s.accessors && s.accessors[p].indexParameters.Some? ==>
      forall q :: q in s.accessors[p].indexParameters.value ==> q in ptypes
  }

  /** PropertyAccessorName on a key of the snapshot. */
  predicate KeyPropertyName(k: MethodKey, property: Option<string>)
  {
    k.name == Some("get_Item") || k.name == Some("set_Item")
    || ((k.name == Some("get_" + CodeReferences.Str(property)) || k.name == Some("set_" + CodeReferences.Str(property)))
        && MethodFlags.IsSpecialName(k.attributes))
  }

  /**
   * One step only takes methods out of the list and keeps the order of the
   * rest, and what it takes out carries an accessor name of the property.
   */
  lemma PropertyStepShrinks(s: PropertyState, keys: map<MethodInfo, MethodKey>, ptypes: map<ParameterInfo, TypeInfo?>, p: PropertyInfo, name: Option<string>, same: (TypeInfo, TypeInfo) -> bool)
    ensures Subsequence(PropertyStep(s, keys, ptypes, p, name, same).methods, s.methods)
    ensures forall m :: m in s.methods && m !in PropertyStep(s, keys, ptypes, p, name, same).methods ==> KeyPropertyName(KeyOf(keys, m), name)
  {
    var acc := PropertyAccessorsOf(s, p);
    var ms := s.methods;
    if acc.indexParameters.Some? {
      var ip := acc.indexParameters.value;
      var g := FirstMatchingIn(ms, keys, ptypes, "get_Item", ip, same);
      var st := FirstMatchingIn(ms, keys, ptypes, "set_Item", ip, same);
      if g.Err? || st.Err? {
        SubsequenceReflexive(ms);
      } else {
        WithoutIfPair(ms, At(ms, g.value), At(ms, st.value));
      }
    } else {
      var getter := SpecialAccessorIn(ms, keys, "get_" + CodeReferences.Str(name));
      var setter := SpecialAccessorIn(ms, keys, "set_" + CodeReferences.Str(name));
      WithoutIfPair(ms, getter, setter);
    }
  }

  /**
   * A snapshot that covers a state covers the state after one step: the
   * step only removes methods, and the index parameters it sets come from
   * methods of the list or from the property itself.
   */
  lemma PropertyStepCovered(s: PropertyState, keys: map<MethodInfo, MethodKey>, ptypes: map<ParameterInfo, TypeInfo?>, p: PropertyInfo, name: Option<string>, same: (TypeInfo, TypeInfo) -> bool)
    requires StateCovered(s, keys, ptypes)
    ensures StateCovered(PropertyStep(s, keys, ptypes, p, name, same), keys, ptypes)
  {
    var acc := PropertyAccessorsOf(s, p);
    if acc.indexParameters.Some? {
      var ip := acc.indexParameters.value;
      IndexerStepCovered(s, keys, ptypes, p,
        FirstMatchingIn(s.methods, keys, ptypes, "get_Item", ip, same),
        FirstMatchingIn(s.methods, keys, ptypes, "set_Item", ip, same));
    } else {
      PlainStepCovered(s, keys, ptypes, p, name);
    }
  }

  /** PropertyStepCovered for an indexer, whatever its two lookups gave. */
  lemma IndexerStepCovered(s: PropertyState, keys: map<MethodInfo, MethodKey>, ptypes: map<ParameterInfo, TypeInfo?>, p: PropertyInfo, g: Result<nat, Exception>, st: Result<nat, Exception>)
    requires StateCovered(s, keys, ptypes) && PropertyAccessorsOf(s, p).indexParameters.Some?
    ensures StateCovered(IndexerStep(s, keys, p, g, st), keys, ptypes)
  {
    var acc := PropertyAccessorsOf(s, p);
    var ip := acc.indexParameters.value;
    var ms := s.methods;
    var r := IndexerStep(s, keys, p, g, st);
    var a := IndexerAccessors(acc, ms, keys, g, st);
    assert p in s.accessors;
    if g.Ok? && st.Ok? {
      var getter := At(ms, g.value);
      var setter := At(ms, st.value);
      WithoutIfPair(ms, getter, setter);
      SubsequenceMembers(r.methods, ms);
      if getter != null {
        assert getter in ms;
      } else if setter != null {
        assert setter in ms;
        var sp := KeyOf(keys, setter).parameters;
        assert forall q :: q in sp[..Min(|ip|, |sp|)] ==> q in sp;
      }
    }
    assert forall q :: q in a.indexParameters.value ==> q in ptypes;
    assert Covered(r.methods, keys, ptypes);
  }

  /** PropertyStepCovered for a property without index parameters. */
  lemma PlainStepCovered(s: PropertyState, keys: map<MethodInfo, MethodKey>, ptypes: map<ParameterInfo, TypeInfo?>, p: PropertyInfo, name: Option<string>)
    requires StateCovered(s, keys, ptypes)
    ensures StateCovered(PlainStep(s, keys, p, name), keys, ptypes)
  {
    var ms := s.methods;
    var r := PlainStep(s, keys, p, name);
    var getter := SpecialAccessorIn(ms, keys, "get_" + CodeReferences.Str(name));
    var setter := SpecialAccessorIn(ms, keys, "set_" + CodeReferences.Str(name));
    WithoutIfPair(ms, getter, setter);
    SubsequenceMembers(r.methods, ms);
    assert r.accessors[p].indexParameters == PropertyAccessorsOf(s, p).indexParameters;
  }

  /** PropertyStepShrinks for PropertyAdvance. */
  lemma PropertyAdvanceShrinks(s: PropertyState, keys: map<MethodInfo, MethodKey>, ptypes: map<ParameterInfo, TypeInfo?>, p: PropertyInfo, name: Option<string>, same: (TypeInfo, TypeInfo) -> bool)
    ensures Subsequence(PropertyAdvance(s, keys, ptypes, p, name, same).methods, s.methods)
    ensures forall m :: m in s.methods && m !in PropertyAdvance(s, keys, ptypes, p, name, same).methods ==> KeyPropertyName(KeyOf(keys, m), name)
  {
    if s.stopped {
      SubsequenceReflexive(s.methods);
    } else {
      PropertyStepShrinks(s, keys, ptypes, p, name, same);
    }
  }

  /** The pass only takes methods out of the list and keeps the order of the rest. */
  lemma {:induction false} PropertyPassShrinks(s0: PropertyState, keys: map<MethodInfo, MethodKey>, ptypes: map<ParameterInfo, TypeInfo?>, ps: seq<PropertyInfo>, names: seq<Option<string>>, same: (TypeInfo, TypeInfo) -> bool, n: nat)
    requires n <= |ps| == |names|
    ensures Subsequence(PropertyPass(s0, keys, ptypes, ps, names, same, n).methods, s0.methods)
  {
    if n == 0 {
      SubsequenceReflexive(s0.methods);
    } else {
      PropertyPassShrinks(s0, keys, ptypes, ps, names, same, n - 1);
      var s := PropertyPass(s0, keys, ptypes, ps, names, same, n - 1);
      PropertyAdvanceShrinks(s, keys, ptypes, ps[n - 1], names[n - 1], same);
      SubsequenceTransitive(PropertyAdvance(s, keys, ptypes, ps[n - 1], names[n - 1], same).methods, s.methods, s0.methods);
    }
  }

  /**
   * What the property pass removes: the key of each method that left the
   * list carries an accessor name of one of the first n properties.
   */
  lemma {:induction false} PropertyPassRemoves(s0: PropertyState, keys: map<MethodInfo, MethodKey>, ptypes: map<ParameterInfo, TypeInfo?>, ps: seq<PropertyInfo>, names: seq<Option<string>>, same: (TypeInfo, TypeInfo) -> bool, n: nat)
    requires n <= |ps| == |names|
    ensures forall m :: m in s0.methods && m !in PropertyPass(s0, keys, ptypes, ps, names, same, n).methods ==>
      exists k :: 0 <= k < n && KeyPropertyName(KeyOf(keys, m), names[k])
  {
    if n > 0 {
      PropertyPassRemoves(s0, keys, ptypes, ps, names, same, n - 1);
      var s := PropertyPass(s0, keys, ptypes, ps, names, same, n - 1);
      PropertyAdvanceShrinks(s, keys, ptypes, ps[n - 1], names[n - 1], same);
      forall m | m in s0.methods && m !in PropertyPass(s0, keys, ptypes, ps, names, same, n).methods
        ensures exists k :: 0 <= k < n && KeyPropertyName(KeyOf(keys, m), names[k])
      {
        if m in s.methods {
          assert KeyPropertyName(KeyOf(keys, m), names[n - 1]);
        } else {
          var k :| 0 <= k < n - 1 && KeyPropertyName(KeyOf(keys, m), names[k]);
          assert KeyPropertyName(KeyOf(keys, m), names[k]);
        }
      }
    }
  }

  /** On keys that are current, what the keys say of a removed method its node says too. */
  lemma KeysPropertyNameRemoved(ms0: seq<MethodInfo>, ms: seq<MethodInfo>, keys: map<MethodInfo, MethodKey>, ps: seq<PropertyInfo>, names: seq<Option<string>>)
    requires KeysCurrent(ms0, keys) && |names| == |ps| && forall j :: 0 <= j < |ps| ==> ps[j].name == names[j]
    requires forall m :: m in ms0 && m !in ms ==> exists k :: 0 <= k < |ps| && KeyPropertyName(KeyOf(keys, m), names[k])
    ensures forall m :: m in ms0 && m !in ms ==> exists k :: 0 <= k < |ps| && PropertyAccessorName(m, ps[k].name)
  {
    forall m | m in ms0 && m !in ms
      ensures exists k :: 0 <= k < |ps| && PropertyAccessorName(m, ps[k].name)
    {
      var k :| 0 <= k < |ps| && KeyPropertyName(KeyOf(keys, m), names[k]);
      assert PropertyAccessorName(m, ps[k].name);
    }
  }

  /**
   * The states the property pass goes through over the first n properties
   * of ps: the pass over each prefix, from s0 to PropertyPass over all n.
   */
  function PropertyTrace(s0: PropertyState, keys: map<MethodInfo, MethodKey>, ptypes: map<ParameterInfo, TypeInfo?>, ps: seq<PropertyInfo>, names: seq<Option<string>>, same: (TypeInfo, TypeInfo) -> bool, n: nat): (r: seq<PropertyState>)
    requires n <= |ps| == |names|
    ensures |r| == n + 1 && forall i :: 0 <= i <= n ==> r[i] == PropertyPass(s0, keys, ptypes, ps, names, same, i)
  {
    seq(n + 1, i requires 0 <= i <= n => PropertyPass(s0, keys, ptypes, ps, names, same, i))
  }

  /** Each state of the trace after the first is PropertyAdvance of the one before. */
  lemma TraceStep(s0: PropertyState, keys: map<MethodInfo, MethodKey>, ptypes: map<ParameterInfo, TypeInfo?>, ps: seq<PropertyInfo>, names: seq<Option<string>>, same: (TypeInfo, TypeInfo) -> bool, n: nat, i: nat)
    requires n <= |ps| == |names| && i < n
    ensures var r := PropertyTrace(s0, keys, ptypes, ps, names, same, n);
      r[i + 1] == PropertyAdvance(r[i], keys, ptypes, ps[i], names[i], same)
  {
    var r := PropertyTrace(s0, keys, ptypes, ps, names, same, n);
    assert r[i] == PropertyPass(s0, keys, ptypes, ps, names, same, i);
    assert r[i + 1] == PropertyPass(s0, keys, ptypes, ps, names, same, i + 1);
  }

  /** TraceStep at every index of the trace. */
  lemma TraceSteps(s0: PropertyState, keys: map<MethodInfo, MethodKey>, ptypes: map<ParameterInfo, TypeInfo?>, ps: seq<PropertyInfo>, names: seq<Option<string>>, same: (TypeInfo, TypeInfo) -> bool, n: nat)
    requires n <= |ps| == |names|
    ensures var r := PropertyTrace(s0, keys, ptypes, ps, names, same, n);
      forall i :: 0 <= i < n ==> r[i + 1] == PropertyAdvance(r[i], keys, ptypes, ps[i], names[i], same)
  {
    forall i | 0 <= i < n
      ensures var r := PropertyTrace(s0, keys, ptypes, ps, names, same, n);
        r[i + 1] == PropertyAdvance(r[i], keys, ptypes, ps[i], names[i], same)
    {
      TraceStep(s0, keys, ptypes, ps, names, same, n, i);
    }
  }

  /** Once the pass has stopped, the trace stays where it stopped. */
  lemma {:induction false} TraceStaysStopped(trace: seq<PropertyState>, keys: map<MethodInfo, MethodKey>, ptypes: map<ParameterInfo, TypeInfo?>, ps: seq<PropertyInfo>, names: seq<Option<string>>, same: (TypeInfo, TypeInfo) -> bool, j: nat)
    requires |names| == |ps| && |trace| == |ps| + 1 && j <= |ps| && trace[j].stopped
    requires forall i :: 0 <= i < |ps| ==> trace[i + 1] == PropertyAdvance(trace[i], keys, ptypes, ps[i], names[i], same)
    ensures trace[|ps|] == trace[j]
    decreases |ps| - j
  {
    if j < |ps| {
      assert trace[j + 1] == trace[j];
      TraceStaysStopped(trace, keys, ptypes, ps, names, same, j + 1);
    }
  }

  /** The method list of t and the accessors of the properties ps are those of s. */
  predicate PropertiesReflect(t: TypeInfo, ps: seq<PropertyInfo>, s: PropertyState)
    reads t`methods, ps`getMethod, ps`setMethod, ps`indexParameters
  {
    t.methods == s.methods
    && forall j :: 0 <= j < |ps| ==> PropertyAccessors(ps[j].getMethod, ps[j].setMethod, ps[j].indexParameters) == PropertyAccessorsOf(s, ps[j])
  }

  /**
   * MergeIndexer as one IndexerStep: given the two lookups as FirstMatching
   * makes them in the current list, the call moves what IndexerStep moves
   * and fails exactly when it stops the pass.
   */
  method MergeIndexerStep(t: TypeInfo, p: PropertyInfo, same: (TypeInfo, TypeInfo) -> bool, ghost ps: seq<PropertyInfo>, ghost s: PropertyState, ghost keys: map<MethodInfo, MethodKey>, ghost g: Result<nat, Exception>, ghost st: Result<nat, Exception>)
    returns (r: Result<(), Exception>)
    requires p in ps && KeysCurrent(s.methods, keys) && PropertiesReflect(t, ps, s) && p.indexParameters.Some?
    requires g == FirstMatching(t.methods, "get_Item", p.indexParameters.value, same)
    requires st == FirstMatching(t.methods, "set_Item", p.indexParameters.value, same)
    modifies t`methods, p`getMethod, p`setMethod, p`indexParameters
    ensures PropertiesReflect(t, ps, IndexerStep(s, keys, p, g, st))
    ensures r.Err? <==> IndexerStep(s, keys, p, g, st).stopped
    ensures r.Err? ==> r.error == NullReference
  {
    ghost var acc := PropertyAccessorsOf(s, p);
    assert acc == PropertyAccessors(p.getMethod, p.setMethod, p.indexParameters);
    r := MergeIndexer(t, p, same);
    ghost var n := IndexerStep(s, keys, p, g, st);
    if g.Ok? && st.Ok? {
      ghost var getter := At(s.methods, g.value);
      ghost var setter := At(s.methods, st.value);
      assert getter != null ==> getter in s.methods;
      assert setter != null ==> setter in s.methods;
    }
    assert PropertyAccessors(p.getMethod, p.setMethod, p.indexParameters) == IndexerAccessors(acc, s.methods, keys, g, st);
    forall j | 0 <= j < |ps| && ps[j] != p
      ensures PropertyAccessors(ps[j].getMethod, ps[j].setMethod, ps[j].indexParameters) == PropertyAccessorsOf(n, ps[j])
    {
      assert PropertyAccessorsOf(n, ps[j]) == PropertyAccessorsOf(s, ps[j]);
    }
  }

  /**
   * MergePlainProperty as one PlainStep: when the method list and the
   * accessors of the properties ps are those of s, the call makes them
   * those of PlainStep.
   */
  method MergePlainStep(t: TypeInfo, p: PropertyInfo, ghost ps: seq<PropertyInfo>, ghost s: PropertyState, ghost keys: map<MethodInfo, MethodKey>)
    requires p in ps && KeysCurrent(s.methods, keys) && PropertiesReflect(t, ps, s)
    modifies t`methods, p`getMethod, p`setMethod
    ensures PropertiesReflect(t, ps, PlainStep(s, keys, p, p.name))
  {
    assert PropertyAccessorsOf(s, p) == PropertyAccessors(p.getMethod, p.setMethod, p.indexParameters);
    SpecialAccessorInAgrees(s.methods, keys, "get_" + CodeReferences.Str(p.name));
    SpecialAccessorInAgrees(s.methods, keys, "set_" + CodeReferences.Str(p.name));
    MergePlainProperty(t, p);
  }

  /**
   * One turn of the loop in RemovePropertyMethods: MergeIndexer for a
   * property with index parameters, MergePlainProperty otherwise. It is one
   * PropertyStep: when the method list and the accessors of the properties
   * ps are those of s, and the snapshot is current and covers s, the call
   * makes them those of PropertyStep and fails exactly when the step stops
   * the pass.
   */
  method MergeProperty(t: TypeInfo, p: PropertyInfo, same: (TypeInfo, TypeInfo) -> bool, ghost ps: seq<PropertyInfo>, ghost s: PropertyState, ghost keys: map<MethodInfo, MethodKey>, ghost ptypes: map<ParameterInfo, TypeInfo?>)
    returns (r: Result<(), Exception>)
    requires p in ps && KeysCurrent(s.methods, keys) && TypesCurrent(ptypes) && StateCovered(s, keys, ptypes)
    requires PropertiesReflect(t, ps, s)
    modifies t`methods, p`getMethod, p`setMethod, p`indexParameters
    ensures PropertiesReflect(t, ps, PropertyStep(s, keys, ptypes, p, p.name, same))
    ensures r.Err? <==> PropertyStep(s, keys, ptypes, p, p.name, same).stopped
    ensures r.Err? ==> r.error == NullReference
  {
    assert PropertyAccessorsOf(s, p) == PropertyAccessors(p.getMethod, p.setMethod, p.indexParameters);
    if p.indexParameters.Some? {
      ghost var ip := p.indexParameters.value;
      ghost var g := FirstMatchingIn(s.methods, keys, ptypes, "get_Item", ip, same);
      ghost var st := FirstMatchingIn(s.methods, keys, ptypes, "set_Item", ip, same);
      FirstMatchingInAgrees(s.methods, keys, ptypes, "get_Item", ip, same);
      FirstMatchingInAgrees(s.methods, keys, ptypes, "set_Item", ip, same);
      r := MergeIndexerStep(t, p, same, ps, s, keys, g, st);
    } else {
      MergePlainStep(t, p, ps, s, keys);
      r := Ok(());
    }
  }

  /**
   * MergeProperty on the state at one point of the trace: the method list
   * and the accessors of the properties ps move to the next state, which
   * the snapshot still covers, and the call fails exactly when that state
   * has stopped.
   */
  method MergeTraceStep(t: TypeInfo, p: PropertyInfo, same: (TypeInfo, TypeInfo) -> bool, ghost ps: seq<PropertyInfo>, ghost s: PropertyState, ghost next: PropertyState, ghost keys: map<MethodInfo, MethodKey>, ghost ptypes: map<ParameterInfo, TypeInfo?>)
    returns (r: Result<(), Exception>)
    requires p in ps && !s.stopped && next == PropertyAdvance(s, keys, ptypes, p, p.name, same)
    requires KeysCurrent(s.methods, keys) && TypesCurrent(ptypes) && StateCovered(s, keys, ptypes)
    requires PropertiesReflect(t, ps, s)
    modifies t`methods, p`getMethod, p`setMethod, p`indexParameters
    ensures PropertiesReflect(t, ps, next) && (r.Err? <==> next.stopped)
    ensures r.Err? ==> r.error == NullReference
    ensures KeysCurrent(next.methods, keys) && StateCovered(next, keys, ptypes)
  {
    PropertyStepShrinks(s, keys, ptypes, p, p.name, same);
    PropertyStepCovered(s, keys, ptypes, p, p.name, same);
    SubsequenceMembers(next.methods, s.methods);
    r := MergeProperty(t, p, same, ps, s, keys, ptypes);
  }

  /**
   * The loop of RemovePropertyMethods: each property of ps in order, which
   * takes the method list and the accessors of the properties through the
   * states of trace; a failure returns at once, where the trace stops.
   */
  method MergePropertyTrace(t: TypeInfo, ps: seq<PropertyInfo>, same: (TypeInfo, TypeInfo) -> bool, ghost trace: seq<PropertyState>, ghost keys: map<MethodInfo, MethodKey>, ghost ptypes: map<ParameterInfo, TypeInfo?>, ghost names: seq<Option<string>>)
    returns (r: Result<(), Exception>)
    requires |names| == |ps| && forall j :: 0 <= j < |ps| ==> ps[j].name == names[j]
    requires |trace| == |ps| + 1 && forall i :: 0 <= i < |ps| ==> trace[i + 1] == PropertyAdvance(trace[i], keys, ptypes, ps[i], names[i], same)
    requires !trace[0].stopped && KeysCurrent(trace[0].methods, keys) && TypesCurrent(ptypes) && StateCovered(trace[0], keys, ptypes)
    requires PropertiesReflect(t, ps, trace[0])
    modifies t`methods, ps`getMethod, ps`setMethod, ps`indexParameters
    ensures PropertiesReflect(t, ps, trace[|ps|]) && (r.Err? <==> trace[|ps|].stopped)
    ensures r.Err? ==> r.error == NullReference
    ensures KeysCurrent(trace[0].methods, keys)
  {
    for i := 0 to |ps|
      invariant !trace[i].stopped && KeysCurrent(trace[i].methods, keys) && StateCovered(trace[i], keys, ptypes)
      invariant PropertiesReflect(t, ps, trace[i]) && KeysCurrent(trace[0].methods, keys)
    {
      r := MergeTraceStep(t, ps[i], same, ps, trace[i], trace[i + 1], keys, ptypes);
      if r.Err? {
        TraceStaysStopped(trace, keys, ptypes, ps, names, same, i + 1);
        return;
      }
    }
    r := Ok(());
  }

  /**
   * The whole property pass along its trace: the method list and the
   * accessors end as the last state of the trace, the pass fails exactly
   * when that state has stopped, methods only leave the list, and each
   * method that left carries an accessor name of one of the properties.
   */
  method MergeProperties(t: TypeInfo, ps: seq<PropertyInfo>, same: (TypeInfo, TypeInfo) -> bool, ghost trace: seq<PropertyState>, ghost keys: map<MethodInfo, MethodKey>, ghost ptypes: map<ParameterInfo, TypeInfo?>, ghost names: seq<Option<string>>)
    returns (r: Result<(), Exception>)
    requires |names| == |ps| && forall j :: 0 <= j < |ps| ==> ps[j].name == names[j]
    requires |trace| == |ps| + 1 && trace == PropertyTrace(trace[0], keys, ptypes, ps, names, same, |ps|)
    requires !trace[0].stopped && KeysCurrent(trace[0].methods, keys) && TypesCurrent(ptypes) && StateCovered(trace[0], keys, ptypes)
    requires PropertiesReflect(t, ps, trace[0])
    modifies t`methods, ps`getMethod, ps`setMethod, ps`indexParameters
    ensures PropertiesReflect(t, ps, trace[|ps|]) && (r.Err? <==> trace[|ps|].stopped)
    ensures r.Err? ==> r.error == NullReference
    ensures Subsequence(t.methods, trace[0].methods)
    ensures forall m :: m in trace[0].methods && m !in t.methods ==> exists k :: 0 <= k < |ps| && PropertyAccessorName(m, ps[k].name)
  {
    TraceSteps(trace[0], keys, ptypes, ps, names, same, |ps|);
    r := MergePropertyTrace(t, ps, same, trace, keys, ptypes, names);
    PropertyPassEffects(trace, keys, ptypes, ps, names, same);
  }

  /**
   * What the whole property pass does to the method list: it keeps the
   * order of what stays, and each method it takes out carries an accessor
   * name of one of the properties.
   */
  lemma PropertyPassEffects(trace: seq<PropertyState>, keys: map<MethodInfo, MethodKey>, ptypes: map<ParameterInfo, TypeInfo?>, ps: seq<PropertyInfo>, names: seq<Option<string>>, same: (TypeInfo, TypeInfo) -> bool)
    requires |names| == |ps| && forall j :: 0 <= j < |ps| ==> ps[j].name == names[j]
    requires |trace| == |ps| + 1 && trace == PropertyTrace(trace[0], keys, ptypes, ps, names, same, |ps|)
    requires KeysCurrent(trace[0].methods, keys)
    ensures Subsequence(trace[|ps|].methods, trace[0].methods)
    ensures forall m :: m in trace[0].methods && m !in trace[|ps|].methods ==> exists k :: 0 <= k < |ps| && PropertyAccessorName(m, ps[k].name)
  {
    PropertyPassShrinks(trace[0], keys, ptypes, ps, names, same, |ps|);
    PropertyPassRemoves(trace[0], keys, ptypes, ps, names, same, |ps|);
    KeysPropertyNameRemoved(trace[0].methods, trace[|ps|].methods, keys, ps, names);
  }

  /** Before the pass, the snapshot of a type covers its property state. */
  lemma InitialPropertiesCovered(t: TypeInfo)
    ensures StateCovered(InitialProperties(t), KeysOf(t.methods), TypesOf(PassParameters(t)))
  {
    var init := InitialProperties(t);
    var keys := KeysOf(t.methods);
    var qs := PassParameters(t);
    forall m, q | m in init.methods && q in keys[m].parameters
      ensures q in qs
    {
    }
    forall p, q | p in init.accessors && init.accessors[p].indexParameters.Some? && q in init.accessors[p].indexParameters.value
      ensures q in qs
    {
      assert p in t.properties;
    }
  }

  /**
   * DocsPEParser.RemovePropertyMethods: each property in turn, an indexer
   * through MergeIndexer and any other property through
   * MergePlainProperty. The method list and every property's accessors end
   * as PropertyPassOf computes them from the type before the pass, and the
   * pass fails exactly when that fold stops at a throwing comparison, with
   * what was already moved left moved. Methods only leave the list, the
   * rest keep their order, and each method that left carries an accessor
   * name of some property.
   */
  method RemovePropertyMethods(t: TypeInfo, same: (TypeInfo, TypeInfo) -> bool) returns (r: Result<(), Exception>)
    modifies t`methods, t.properties`getMethod, t.properties`setMethod, t.properties`indexParameters
    ensures r.Err? <==> old(PropertyPassOf(t, same)).stopped
    ensures PropertiesReflect(t, t.properties, old(PropertyPassOf(t, same)))
    ensures r.Err? ==> r.error == NullReference
    ensures Subsequence(t.methods, old(t.methods))
    ensures forall m :: m in old(t.methods) && m !in t.methods ==>
      exists k :: 0 <= k < |t.properties| && PropertyAccessorName(m, t.properties[k].name)
  {
    var ps := t.properties;
    ghost var init := InitialProperties(t);
    ghost var keys := KeysOf(t.methods);
    ghost var ptypes := TypesOf(PassParameters(t));
    ghost var names := PropertyNames(ps);
    ghost var trace := PropertyTrace(init, keys, ptypes, ps, names, same, |ps|);
    assert trace[|ps|] == PropertyPassOf(t, same);
    InitialPropertiesCovered(t);
    r := MergeProperties(t, ps, same, trace, keys, ptypes, names);
    assert old(t.methods) == init.methods && t.properties == ps;
  }

  /**
   * Zip stops at the shorter list: parameters past the common prefix, on
   * either side, never change what ParametersEquals answers.
   */
  lemma {:induction false} ParametersEqualsCommonPrefix(lhs: seq<ParameterInfo>, rhs: seq<ParameterInfo>, extra: seq<ParameterInfo>, same: (TypeInfo, TypeInfo) -> bool)
    ensures |lhs| <= |rhs| ==> ParametersEquals(lhs, rhs + extra, same) == ParametersEquals(lhs, rhs, same)
    ensures |rhs| <= |lhs| ==> ParametersEquals(lhs + extra, rhs, same) == ParametersEquals(lhs, rhs, same)
    decreases |lhs|
  {
    if lhs != [] && rhs != [] {
      assert (rhs + extra)[1..] == rhs[1..] + extra;
      assert (lhs + extra)[1..] == lhs[1..] + extra;
      ParametersEqualsCommonPrefix(lhs[1..], rhs[1..], extra, same);
    }
  }

  /** The property nodes of the types ts. */
  function PropertiesOf(ts: seq<TypeInfo>): (r: set<PropertyInfo>)
    reads ts`properties
    ensures forall i :: 0 <= i < |ts| ==> forall p :: p in ts[i].properties ==> p in r
  {
    set i, p | 0 <= i < |ts| && p in ts[i].properties :: p
  }

  /** The event nodes of the types ts. */
  function EventsOf(ts: seq<TypeInfo>): (r: set<EventInfo>)
    reads ts`events
    ensures forall i :: 0 <= i < |ts| ==> forall e :: e in ts[i].events ==> e in r
  {
    set i, e | 0 <= i < |ts| && e in ts[i].events :: e
  }

  /** The method nodes listed by the types ts. */
  ghost function MethodsOf(ts: seq<TypeInfo>): (r: set<MethodInfo>)
    reads ts`methods
    ensures forall i :: 0 <= i < |ts| ==> forall m :: m in ts[i].methods ==> m in r
  {
    set i, m | 0 <= i < |ts| && m in ts[i].methods :: m
  }

  /** The parameter nodes the property pass may compare on some type of ts. */
  ghost function ParametersOf(ts: seq<TypeInfo>): (r: set<ParameterInfo>)
    reads ts`methods, ts`properties, MethodsOf(ts)`parameters, PropertiesOf(ts)`indexParameters
    ensures forall i :: 0 <= i < |ts| ==> PassParameters(ts[i]) <= r
  {
    set i, q | 0 <= i < |ts| && q in PassParameters(ts[i]) :: q
  }

  /** ins records the inputs of the passes on each type of ts as it is now. */
  ghost predicate AllInputsAre(ins: seq<PassInputs>, ts: seq<TypeInfo>)
    reads ts`methods, ts`properties, ts`events
    reads MethodsOf(ts)`name, MethodsOf(ts)`attributes, MethodsOf(ts)`parameters
    reads PropertiesOf(ts)`name, PropertiesOf(ts)`getMethod, PropertiesOf(ts)`setMethod, PropertiesOf(ts)`indexParameters
    reads EventsOf(ts)`name, EventsOf(ts)`addMethod, EventsOf(ts)`removeMethod, ParametersOf(ts)`parameterType
  {
    |ins| == |ts| && forall i :: 0 <= i < |ts| ==> ins[i] == InputsOf(ts[i])
  }

  /** acc gives every event of es the accessors it holds now. */
  predicate AccessorsCurrent(es: seq<EventInfo>, acc: map<EventInfo, EventAccessors>)
    reads es`addMethod, es`removeMethod
  {
    forall e :: e in es ==> e in acc && acc[e] == EventAccessors(e.addMethod, e.removeMethod)
  }

  /** The accessors the events es hold now. */
  function EventAccessorMap(es: seq<EventInfo>): (r: map<EventInfo, EventAccessors>)
    reads es`addMethod, es`removeMethod
    ensures AccessorsCurrent(es, r) && r.Keys == set e | e in es
  {
    map e | e in es :: EventAccessors(e.addMethod, e.removeMethod)
  }

  /** The accessor map of es is the only map over exactly the events of es that keeps them current. */
  lemma AccessorMapCurrent(es: seq<EventInfo>, acc: map<EventInfo, EventAccessors>)
    requires AccessorsCurrent(es, acc) && acc.Keys == set e | e in es
    ensures EventAccessorMap(es) == acc
  {
  }

  /** The names of es are the only sequence that lists each event's current name. */
  lemma EventNamesCurrent(es: seq<EventInfo>, names: seq<Option<string>>)
    requires |names| == |es| && forall i :: 0 <= i < |es| ==> names[i] == es[i].name
    ensures EventNames(es) == names
  {
  }

  /** The keys of ms are the only map over exactly the nodes of ms that keeps them current. */
  lemma KeysOfCurrent(ms: seq<MethodInfo>, keys: map<MethodInfo, MethodKey>)
    requires KeysCurrent(ms, keys) && keys.Keys == set m | m in ms
    ensures KeysOf(ms) == keys
  {
  }

  /** The event pass over the events es, run on the method list ms. */
  function EventPassOn(es: seq<EventInfo>, ms: seq<MethodInfo>): EventState
    reads es`name, es`addMethod, es`removeMethod, ms`name, ms`attributes, ms`parameters
  {
    EventPass(EventState(ms, EventAccessorMap(es)), KeysOf(ms), es, EventNames(es), |es|)
  }

  /** The event pass of a type is the event pass over its events, run on its method list. */
  lemma EventPassOfIsOn(t: TypeInfo)
    ensures EventPassOf(t) == EventPassOn(t.events, t.methods)
  {
  }

  /** The properties ps hold the accessors the property pass s gives them. */
  predicate PropertyAccessorsAre(ps: seq<PropertyInfo>, s: PropertyState)
    reads ps`getMethod, ps`setMethod, ps`indexParameters
  {
    forall j :: 0 <= j < |ps| ==> PropertyAccessors(ps[j].getMethod, ps[j].setMethod, ps[j].indexParameters) == PropertyAccessorsOf(s, ps[j])
  }

  /**
   * Both passes are done on t: its properties hold the accessors of the
   * property pass ps, and its method list and events those of the event
   * pass es.
   */
  predicate AccessorsMoved(t: TypeInfo, ps: PropertyState, es: EventState)
    reads t`methods, t`properties, t`events, t.properties`getMethod, t.properties`setMethod, t.properties`indexParameters
    reads t.events`addMethod, t.events`removeMethod
  {
    PropertyAccessorsAre(t.properties, ps) && Reflects(t, t.events, es)
  }

  /**
   * The property pass on t, as the first half of one turn of the loop of
   * DocsPEParser.Parse: besides what RemovePropertyMethods moves, it leaves
   * the names, attributes and parameters of every method node, and the
   * names and accessors of t's events, as they were.
   */
  method PropertyPhase(t: TypeInfo, same: (TypeInfo, TypeInfo) -> bool, ghost ms: seq<MethodInfo>, ghost keys: map<MethodInfo, MethodKey>, ghost acc: map<EventInfo, EventAccessors>, ghost names: seq<Option<string>>)
    returns (r: Result<(), Exception>)
    requires KeysCurrent(ms, keys) && AccessorsCurrent(t.events, acc)
    requires |names| == |t.events| && forall i :: 0 <= i < |t.events| ==> names[i] == t.events[i].name
    modifies t`methods, t.properties`getMethod, t.properties`setMethod, t.properties`indexParameters
    ensures r.Err? <==> old(PropertyPassOf(t, same)).stopped
    ensures r.Err? ==> r.error == NullReference
    ensures PropertiesReflect(t, t.properties, old(PropertyPassOf(t, same)))
    ensures KeysCurrent(ms, keys) && AccessorsCurrent(t.events, acc)
    ensures forall i :: 0 <= i < |t.events| ==> names[i] == t.events[i].name
  {
    r := RemovePropertyMethods(t, same);
  }

  /**
   * The event pass on t, as the second half of one turn of the loop of
   * DocsPEParser.Parse: it leaves the accessors of t's properties as they
   * were.
   */
  method EventPhase(t: TypeInfo, ghost ps: PropertyState)
    requires PropertyAccessorsAre(t.properties, ps)
    modifies t`methods, t.events`addMethod, t.events`removeMethod
    ensures AccessorsMoved(t, ps, old(EventPassOn(t.events, t.methods)))
  {
    EventPassOfIsOn(t);
    RemoveEventMethods(t);
  }

  /**
   * One turn of the loop of DocsPEParser.Parse over the provider's types:
   * the property pass on t, then, unless it throws, the event pass on the
   * method list the property pass leaves. ps and es are the outcomes of
   * the two passes, computed from t as it is before the turn.
   */
  method RemoveTypeAccessors(t: TypeInfo, same: (TypeInfo, TypeInfo) -> bool, ghost ps: PropertyState, ghost es: EventState)
    returns (r: Result<(), Exception>)
    requires ps == PropertyPassOf(t, same) && es == EventPassOn(t.events, ps.methods)
    modifies t`methods, t.properties`getMethod, t.properties`setMethod, t.properties`indexParameters
    modifies t.events`addMethod, t.events`removeMethod
    ensures r.Err? <==> ps.stopped
    ensures r.Err? ==> r.error == NullReference
    ensures ViewOf(t) == if ps.stopped then TypeView(ps.methods, PropertiesIn(t.properties, ps), old(EventViews(t.events)))
                         else ViewIn(t.properties, t.events, ps, es)
  {
    ghost var keys := KeysOf(ps.methods);
    ghost var acc := EventAccessorMap(t.events);
    ghost var names := EventNames(t.events);
    r := PropertyPhase(t, same, ps.methods, keys, acc, names);
    if r.Ok? {
      KeysOfCurrent(t.methods, keys);
      AccessorMapCurrent(t.events, acc);
      EventNamesCurrent(t.events, names);
      assert EventPassOn(t.events, t.methods) == es;
      EventPhase(t, ps);
      ViewMoved(t, ps, es);
    } else {
      EventViewsUnchanged(t.events);
      ReflectedViews(t, ps);
    }
  }

  /**
   * What the two passes read of a type, as values: its method list and the
   * keys of its methods, its properties with their names, their accessors
   * and the types of the parameters the property pass compares, and its
   * events with their names and accessors.
   */
  datatype PassInputs = PassInputs(
    methods: seq<MethodInfo>, keys: map<MethodInfo, MethodKey>,
    properties: seq<PropertyInfo>, propertyNames: seq<Option<string>>, initial: PropertyState, ptypes: map<ParameterInfo, TypeInfo?>,
    events: seq<EventInfo>, eventNames: seq<Option<string>>, eventAccessors: map<EventInfo, EventAccessors>)

  /** The name lists of snap are as long as the lists they name. */
  predicate Sized(snap: PassInputs)
  {
    |snap.propertyNames| == |snap.properties| && |snap.eventNames| == |snap.events|
  }

  /** The inputs of the passes on t as t is now. */
  function InputsOf(t: TypeInfo): (r: PassInputs)
    ensures Sized(r)
    reads t`methods, t`properties, t`events, t.methods`name, t.methods`attributes, t.methods`parameters
    reads t.properties`name, t.properties`getMethod, t.properties`setMethod, t.properties`indexParameters
    reads t.events`name, t.events`addMethod, t.events`removeMethod, PassParameters(t)`parameterType
  {
    PassInputs(t.methods, KeysOf(t.methods), t.properties, PropertyNames(t.properties), InitialProperties(t), TypesOf(PassParameters(t)),
      t.events, EventNames(t.events), EventAccessorMap(t.events))
  }

  /** The parameters the property pass compares, as the inputs snap record them. */
  function SnapParameters(snap: PassInputs): set<ParameterInfo>
  {
    (set m, q | m in snap.methods && m in snap.keys && q in snap.keys[m].parameters :: q)
    + (set p, q | p in snap.properties && p in snap.initial.accessors && snap.initial.accessors[p].indexParameters.Some?
         && q in snap.initial.accessors[p].indexParameters.value :: q)
  }

  /** The parts of snap agree with each other, as InputsOf builds them. */
  predicate Consistent(snap: PassInputs)
  {
    && Sized(snap) && snap.keys.Keys == (set m | m in snap.methods)
    && snap.initial.methods == snap.methods && !snap.initial.stopped
    && snap.initial.accessors.Keys == (set p | p in snap.properties)
    && snap.ptypes.Keys == SnapParameters(snap)
    && snap.eventAccessors.Keys == (set e | e in snap.events)
  }

  /**
   * What snap records of t that neither pass writes: the property and
   * event lists, the names, the keys of the methods and the parameter types.
   */
  predicate Fixed(t: TypeInfo, snap: PassInputs)
    reads t`properties, t`events, snap.methods`name, snap.methods`attributes, snap.methods`parameters
    reads snap.properties`name, snap.events`name, snap.ptypes.Keys`parameterType
  {
    && Consistent(snap) && t.properties == snap.properties && t.events == snap.events
    && KeysCurrent(snap.methods, snap.keys)
    && (forall i :: 0 <= i < |snap.properties| ==> snap.propertyNames[i] == snap.properties[i].name)
    && (forall i :: 0 <= i < |snap.events| ==> snap.eventNames[i] == snap.events[i].name)
    && TypesCurrent(snap.ptypes)
  }

  /** What snap records of t that the passes write: the method list and the accessors. */
  predicate Untouched(t: TypeInfo, snap: PassInputs)
    reads t`methods, t`properties, t`events, t.properties`getMethod, t.properties`setMethod, t.properties`indexParameters
    reads t.events`addMethod, t.events`removeMethod
  {
    && t.methods == snap.methods
    && (forall p :: p in t.properties ==>
          p in snap.initial.accessors && snap.initial.accessors[p] == PropertyAccessors(p.getMethod, p.setMethod, p.indexParameters))
    && AccessorsCurrent(t.events, snap.eventAccessors)
  }

  /** The outcome of the property pass on the inputs snap. */
  function PropertyPassFrom(snap: PassInputs, same: (TypeInfo, TypeInfo) -> bool): PropertyState
    requires Sized(snap)
  {
    PropertyPass(snap.initial, snap.keys, snap.ptypes, snap.properties, snap.propertyNames, same, |snap.properties|)
  }

  /** The keys of keys for the nodes of ms. */
  function KeysFor(keys: map<MethodInfo, MethodKey>, ms: seq<MethodInfo>): map<MethodInfo, MethodKey>
  {
    map m | m in ms && m in keys :: keys[m]
  }

  /** The outcome of the event pass of the inputs snap, run on the method list ms. */
  function EventPassFrom(snap: PassInputs, ms: seq<MethodInfo>): EventState
    requires Sized(snap)
  {
    EventPass(EventState(ms, snap.eventAccessors), KeysFor(snap.keys, ms), snap.events, snap.eventNames, |snap.events|)
  }

  /** The inputs of a type record it as it is. */
  lemma InputsOfCurrent(t: TypeInfo)
    ensures Fixed(t, InputsOf(t)) && Untouched(t, InputsOf(t))
  {
  }

  /**
   * Inputs that record t as it is give the passes of t: the property pass,
   * and the event pass on the method list it leaves.
   */
  lemma InputsGivePasses(t: TypeInfo, snap: PassInputs, same: (TypeInfo, TypeInfo) -> bool)
    requires Fixed(t, snap) && Untouched(t, snap)
    ensures PropertyPassOf(t, same) == PropertyPassFrom(snap, same)
    ensures EventPassOn(t.events, PropertyPassOf(t, same).methods) == EventPassFrom(snap, PropertyPassOf(t, same).methods)
  {
    InputsGiveInitial(t, snap);
    InputsGiveTypes(t, snap);
    KeysOfCurrent(t.methods, snap.keys);
    assert PropertyNames(t.properties) == snap.propertyNames;
    var ms := PropertyPassFrom(snap, same).methods;
    PropertyPassShrinks(snap.initial, snap.keys, snap.ptypes, snap.properties, snap.propertyNames, same, |snap.properties|);
    InputsGiveEvents(t, snap, ms);
  }

  /** Inputs that record t as it is hold the property state t starts the pass with. */
  lemma InputsGiveInitial(t: TypeInfo, snap: PassInputs)
    requires Fixed(t, snap) && Untouched(t, snap)
    ensures InitialProperties(t) == snap.initial
  {
    assert snap.initial.methods == t.methods;
  }

  /** Inputs that record t as it is hold the types of the parameters the property pass compares. */
  lemma InputsGiveTypes(t: TypeInfo, snap: PassInputs)
    requires Fixed(t, snap) && Untouched(t, snap)
    ensures TypesOf(PassParameters(t)) == snap.ptypes
  {
    assert PassParameters(t) == SnapParameters(snap) by {
      InputsGiveInitial(t, snap);
    }
  }

  /** Inputs that record t as it is give the event pass of t on a method list the property pass leaves. */
  lemma InputsGiveEvents(t: TypeInfo, snap: PassInputs, ms: seq<MethodInfo>)
    requires Fixed(t, snap) && Untouched(t, snap) && Subsequence(ms, t.methods)
    ensures EventPassOn(t.events, ms) == EventPassFrom(snap, ms)
  {
    EventNamesCurrent(t.events, snap.eventNames);
    AccessorMapCurrent(t.events, snap.eventAccessors);
    SubsequenceMembers(ms, t.methods);
    assert KeysOf(ms) == KeysFor(snap.keys, ms);
  }

  /** What the passes write on a type, as values: its method list and the accessors of its properties and of its events, in list order. */
  datatype TypeView = TypeView(methods: seq<MethodInfo>, properties: seq<PropertyAccessors>, events: seq<EventAccessors>)

  /** The accessors the properties ps hold now, in list order. */
  function PropertyViews(ps: seq<PropertyInfo>): (r: seq<PropertyAccessors>)
    reads ps`getMethod, ps`setMethod, ps`indexParameters
    ensures |r| == |ps| && forall k :: 0 <= k < |ps| ==> r[k] == PropertyAccessors(ps[k].getMethod, ps[k].setMethod, ps[k].indexParameters)
  {
    if ps == [] then [] else [PropertyAccessors(ps[0].getMethod, ps[0].setMethod, ps[0].indexParameters)] + PropertyViews(ps[1..])
  }

  /** The accessors the events es hold now, in list order. */
  function EventViews(es: seq<EventInfo>): (r: seq<EventAccessors>)
    reads es`addMethod, es`removeMethod
    ensures |r| == |es| && forall k :: 0 <= k < |es| ==> r[k] == EventAccessors(es[k].addMethod, es[k].removeMethod)
  {
    if es == [] then [] else [EventAccessors(es[0].addMethod, es[0].removeMethod)] + EventViews(es[1..])
  }

  /** What the passes write on t, as t is now. */
  function ViewOf(t: TypeInfo): TypeView
    reads t`methods, t`properties, t`events, t.properties`getMethod, t.properties`setMethod, t.properties`indexParameters
    reads t.events`addMethod, t.events`removeMethod
  {
    TypeView(t.methods, PropertyViews(t.properties), EventViews(t.events))
  }

  /** The accessors the property state s gives the properties props, in list order. */
  function PropertiesIn(props: seq<PropertyInfo>, s: PropertyState): (r: seq<PropertyAccessors>)
    ensures |r| == |props| && forall k :: 0 <= k < |props| ==> r[k] == PropertyAccessorsOf(s, props[k])
  {
    if props == [] then [] else [PropertyAccessorsOf(s, props[0])] + PropertiesIn(props[1..], s)
  }

  /** The accessors the map acc gives the events events, in list order (none for an event it does not hold). */
  function EventsIn(events: seq<EventInfo>, acc: map<EventInfo, EventAccessors>): (r: seq<EventAccessors>)
    ensures |r| == |events|
    ensures forall k :: 0 <= k < |events| ==> r[k] == if events[k] in acc then acc[events[k]] else EventAccessors(null, null)
  {
    if events == [] then [] else [if events[0] in acc then acc[events[0]] else EventAccessors(null, null)] + EventsIn(events[1..], acc)
  }

  /** The view of the properties props and events events under the pass states ps and es. */
  function ViewIn(props: seq<PropertyInfo>, events: seq<EventInfo>, ps: PropertyState, es: EventState): TypeView
  {
    TypeView(es.methods, PropertiesIn(props, ps), EventsIn(events, es.accessors))
  }


  /** The view the inputs snap record. */
  function SnapView(snap: PassInputs): TypeView
  {
    ViewIn(snap.properties, snap.events, snap.initial, EventState(snap.methods, snap.eventAccessors))
  }

  /** Both passes are done on t exactly when t shows the view of their outcomes. */
  lemma ViewMoved(t: TypeInfo, ps: PropertyState, es: EventState)
    ensures ViewOf(t) == ViewIn(t.properties, t.events, ps, es) <==> AccessorsMoved(t, ps, es)
  {
  }

  /** The inputs of t record the view t shows now. */
  lemma ViewOfInputs(t: TypeInfo)
    ensures ViewOf(t) == SnapView(InputsOf(t))
  {
  }

  /** A type that shows the view its inputs record is as they record it. */
  lemma UntouchedByView(t: TypeInfo, snap: PassInputs)
    requires Fixed(t, snap) && ViewOf(t) == SnapView(snap)
    ensures Untouched(t, snap)
  {
  }

  /**
   * ps is the property pass on the inputs snap with the comparer same. It
   * is stated for every comparer equal to same, so that the pass is
   * unfolded only where a proof names it.
   */
  ghost predicate PropertyPassIs(snap: PassInputs, same: (TypeInfo, TypeInfo) -> bool, ps: PropertyState)
    requires Sized(snap)
  {
    forall same' {:trigger PropertyPassFrom(snap, same')} :: same' == same ==> ps == PropertyPassFrom(snap, same')
  }

  /** es is the event pass of the inputs snap on the method list ms, stated in the same guarded way. */
  ghost predicate EventPassIs(snap: PassInputs, ms: seq<MethodInfo>, es: EventState)
    requires Sized(snap)
  {
    forall ms' {:trigger EventPassFrom(snap, ms')} :: ms' == ms ==> es == EventPassFrom(snap, ms')
  }

  /**
   * The view one turn leaves on a type whose inputs are snap, given the
   * outcome ps of its property pass and es of its event pass: when the
   * property pass throws, the properties it got to and the method list it
   * left, with the events as they were; otherwise both outcomes.
   */
  function StepView(snap: PassInputs, ps: PropertyState, es: EventState): TypeView
  {
    ViewIn(snap.properties, snap.events, ps, if ps.stopped then EventState(ps.methods, snap.eventAccessors) else es)
  }
  /** v is the view of the inputs snap, stated in the same guarded way. */
  ghost predicate SnapViewIs(snap: PassInputs, v: TypeView)
  {
    forall snap' {:trigger SnapView(snap')} :: snap' == snap ==> SnapView(snap') == v
  }

  /** v is the view one turn leaves, stated in the same guarded way. */
  ghost predicate StepViewIs(snap: PassInputs, ps: PropertyState, es: EventState, v: TypeView)
  {
    forall es' {:trigger StepView(snap, ps, es')} :: es' == es ==> StepView(snap, ps, es') == v
  }

  /** A type shows the view of a stopped property pass exactly when the pass is reflected and its events keep their accessors. */
  lemma ViewStopped(t: TypeInfo, ps: PropertyState, acc: map<EventInfo, EventAccessors>)
    requires forall e :: e in t.events ==> e in acc
    ensures ViewOf(t) == ViewIn(t.properties, t.events, ps, EventState(ps.methods, acc))
        <==> PropertiesReflect(t, t.properties, ps) && AccessorsCurrent(t.events, acc)
  {
    var v := ViewIn(t.properties, t.events, ps, EventState(ps.methods, acc));
    if AccessorsCurrent(t.events, acc) {
      assert EventViews(t.events) == v.events;
    }
    if ViewOf(t) == v {
      forall e | e in t.events
        ensures acc[e] == EventAccessors(e.addMethod, e.removeMethod)
      {
        var k :| 0 <= k < |t.events| && t.events[k] == e;
        assert EventViews(t.events)[k] == v.events[k];
      }
    }
  }

  /** Properties that reflect the property state ps show its accessors. */
  lemma ReflectedViews(t: TypeInfo, ps: PropertyState)
    requires PropertiesReflect(t, t.properties, ps)
    ensures t.methods == ps.methods
    ensures PropertyViews(t.properties) == PropertiesIn(t.properties, ps)
  {
  }

  /** Events whose accessors are unchanged show the accessors they showed. */
  twostate lemma EventViewsUnchanged(es: seq<EventInfo>)
    requires forall e :: e in es ==> e.addMethod == old(e.addMethod) && e.removeMethod == old(e.removeMethod)
    ensures EventViews(es) == old(EventViews(es))
  {
    if es != [] {
      EventViewsUnchanged(es[1..]);
    }
  }

  /** Properties whose accessors are unchanged show the accessors they showed. */
  twostate lemma PropertyViewsUnchanged(ps: seq<PropertyInfo>)
    requires forall p :: p in ps ==> p.getMethod == old(p.getMethod) && p.setMethod == old(p.setMethod) && p.indexParameters == old(p.indexParameters)
    ensures PropertyViews(ps) == old(PropertyViews(ps))
  {
    if ps != [] {
      PropertyViewsUnchanged(ps[1..]);
    }
  }

  /**
   * One turn of the loop of DocsPEParser.Parse on the type t that the
   * inputs snap record: what RemoveTypeAccessors does, stated as the view
   * it leaves.
   */
  method PassType(t: TypeInfo, same: (TypeInfo, TypeInfo) -> bool, ghost snap: PassInputs, ghost ps: PropertyState, ghost es: EventState, ghost target: TypeView)
    returns (r: Result<(), Exception>)
    requires Fixed(t, snap) && SnapViewIs(snap, ViewOf(t))
    requires PropertyPassIs(snap, same, ps) && EventPassIs(snap, ps.methods, es) && StepViewIs(snap, ps, es, target)
    modifies t`methods, t.properties`getMethod, t.properties`setMethod, t.properties`indexParameters
    modifies t.events`addMethod, t.events`removeMethod
    ensures ViewOf(t) == target
    ensures r.Err? <==> ps.stopped
    ensures r.Err? ==> r.error == NullReference
  {
    assert ps == PropertyPassOf(t, same) && es == EventPassOn(t.events, ps.methods) by {
      assert ps == PropertyPassFrom(snap, same) && es == EventPassFrom(snap, ps.methods);
      assert ViewOf(t) == SnapView(snap);
      UntouchedByView(t, snap);
      InputsGivePasses(t, snap, same);
    }
    assert EventViews(t.events) == EventsIn(snap.events, snap.eventAccessors) by {
      assert ViewOf(t) == SnapView(snap);
    }
    r := RemoveTypeAccessors(t, same, ps, es);
    assert ViewOf(t) == StepView(snap, ps, es);
  }

  /**
   * Both passes on ts[i], which the inputs snap record. ts[i] then shows the view target of the turn,
   * and every other type the view it showed: the types own their
   * properties and events, so none of those belongs to ts[i].
   */
  method TurnOn(ts: seq<TypeInfo>, i: nat, same: (TypeInfo, TypeInfo) -> bool, ghost snap: PassInputs, ghost ps: PropertyState, ghost es: EventState, ghost target: TypeView)
    returns (r: Result<(), Exception>)
    requires i < |ts| && forall j :: 0 <= j < |ts| && j != i ==> ts[j] != ts[i]
    requires forall j :: 0 <= j < |ts| ==> ts[j].OwnsMembers()
    requires Fixed(ts[i], snap) && SnapViewIs(snap, ViewOf(ts[i])) && Planned(snap, same, ps, es, target)
    modifies {ts[i]}`methods, ts[i].properties`getMethod, ts[i].properties`setMethod, ts[i].properties`indexParameters
    modifies ts[i].events`addMethod, ts[i].events`removeMethod
    ensures ViewOf(ts[i]) == target
    ensures forall j :: 0 <= j < |ts| && j != i ==> ViewOf(ts[j]) == old(ViewOf(ts[j]))
    ensures r.Err? <==> ps.stopped
    ensures r.Err? ==> r.error == NullReference
  {
    r := PassType(ts[i], same, snap, ps, es, target);
    forall j | 0 <= j < |ts| && j != i
      ensures ViewOf(ts[j]) == old(ViewOf(ts[j]))
    {
      var t := ts[j];
      assert t.methods == old(t.methods) && t.properties == old(t.properties) && t.events == old(t.events);
      forall k | 0 <= k < |t.properties|
        ensures PropertyViews(t.properties)[k] == old(PropertyViews(t.properties))[k]
      {
        var p := t.properties[k];
        assert p.declaringType == t && old(p !in ts[i].properties);
      }
      forall k | 0 <= k < |t.events|
        ensures EventViews(t.events)[k] == old(EventViews(t.events))[k]
      {
        var e := t.events[k];
        assert e.declaringType == t && old(e !in ts[i].events);
      }
      assert PropertyViews(t.properties) == old(PropertyViews(t.properties));
      assert EventViews(t.events) == old(EventViews(t.events));
    }
  }

  /** Both passes on ts[i]; the inputs ins of every type still record what the passes do not write. */
  method KeptTurn(ts: seq<TypeInfo>, i: nat, same: (TypeInfo, TypeInfo) -> bool, ghost ins: seq<PassInputs>, ghost ps: PropertyState, ghost es: EventState, ghost target: TypeView)
    returns (r: Result<(), Exception>)
    requires i < |ts| == |ins| && forall j :: 0 <= j < |ts| && j != i ==> ts[j] != ts[i]
    requires forall j :: 0 <= j < |ts| ==> ts[j].OwnsMembers() && Kept(ts[j], ins[j])
    requires SnapViewIs(ins[i], ViewOf(ts[i])) && Planned(ins[i], same, ps, es, target)
    modifies {ts[i]}`methods, ts[i].properties`getMethod, ts[i].properties`setMethod, ts[i].properties`indexParameters
    modifies ts[i].events`addMethod, ts[i].events`removeMethod
    ensures forall j :: 0 <= j < |ts| ==> Kept(ts[j], ins[j])
    ensures ViewOf(ts[i]) == target
    ensures forall j :: 0 <= j < |ts| && j != i ==> ViewOf(ts[j]) == old(ViewOf(ts[j]))
    ensures r.Err? <==> ps.stopped
    ensures r.Err? ==> r.error == NullReference
  {
    assert Fixed(ts[i], ins[i]);
    r := TurnOn(ts, i, same, ins[i], ps, es, target);
  }

  /**
   * One turn of the loop of DocsPEParser.Parse: both passes on ts[i]. The
   * types before i keep the views views their turns left, ts[i] takes the
   * view targets[i] of its turn, the types after i keep the views views
   * they showed, and the inputs ins of every type still record what the
   * passes do not write.
   */
  method RemoveTurn(ts: seq<TypeInfo>, i: nat, same: (TypeInfo, TypeInfo) -> bool, ghost ins: seq<PassInputs>, ghost views: seq<TypeView>,
                    ghost ps: seq<PropertyState>, ghost es: seq<EventState>, ghost targets: seq<TypeView>)
    returns (r: Result<(), Exception>)
    requires i < |ts| == |ins| == |views| == |ps| == |es| == |targets|
    requires forall j :: 0 <= j < |ts| && j != i ==> ts[j] != ts[i]
    requires forall j :: 0 <= j < |ts| ==> ts[j].OwnsMembers() && Kept(ts[j], ins[j])
    requires Planned(ins[i], same, ps[i], es[i], targets[i])
    requires forall j :: 0 <= j < i ==> ViewIs(ts[j], targets[j])
    requires forall j :: i <= j < |ts| ==> ViewIs(ts[j], views[j]) && SnapViewIs(ins[j], views[j])
    modifies {ts[i]}`methods, ts[i].properties`getMethod, ts[i].properties`setMethod, ts[i].properties`indexParameters
    modifies ts[i].events`addMethod, ts[i].events`removeMethod
    ensures forall j :: 0 <= j < |ts| ==> Kept(ts[j], ins[j])
    ensures forall j :: 0 <= j <= i ==> ViewIs(ts[j], targets[j])
    ensures forall j :: i < j < |ts| ==> ViewIs(ts[j], views[j])
    ensures r.Err? <==> ps[i].stopped
    ensures r.Err? ==> r.error == NullReference
  {
    assert ViewOf(ts[i]) == views[i];
    r := KeptTurn(ts, i, same, ins, ps[i], es[i], targets[i]);
  }

  /** snap are the inputs of t as t is now, stated in the same guarded way. */
  ghost predicate InputsAre(t: TypeInfo, snap: PassInputs)
    reads t`methods, t`properties, t`events, t.methods`name, t.methods`attributes, t.methods`parameters
    reads t.properties`name, t.properties`getMethod, t.properties`setMethod, t.properties`indexParameters
    reads t.events`name, t.events`addMethod, t.events`removeMethod, PassParameters(t)`parameterType
  {
    forall t' {:trigger InputsOf(t')} :: t' == t ==> InputsOf(t') == snap
  }

  /** snap record what the passes do not write on t, stated in the same guarded way. */
  ghost predicate Kept(t: TypeInfo, snap: PassInputs)
    reads t`properties, t`events, snap.methods`name, snap.methods`attributes, snap.methods`parameters
    reads snap.properties`name, snap.events`name, snap.ptypes.Keys`parameterType
  {
    forall t' {:trigger Fixed(t', snap)} :: t' == t ==> Fixed(t', snap)
  }

  /**
   * The turn on a type with the inputs snap is planned: ps and es are the
   * outcomes of its passes with the comparer same, and target the view its
   * turn leaves.
   */
  ghost predicate Planned(snap: PassInputs, same: (TypeInfo, TypeInfo) -> bool, ps: PropertyState, es: EventState, target: TypeView)
  {
    Sized(snap) && PropertyPassIs(snap, same, ps) && EventPassIs(snap, ps.methods, es) && StepViewIs(snap, ps, es, target)
  }

  /** t shows the view v, stated in the same guarded way. */
  ghost predicate ViewIs(t: TypeInfo, v: TypeView)
    reads t`methods, t`properties, t`events, t.properties`getMethod, t.properties`setMethod, t.properties`indexParameters
    reads t.events`addMethod, t.events`removeMethod
  {
    forall t' {:trigger ViewOf(t')} :: t' == t ==> ViewOf(t') == v
  }

  /** The inputs, the pass outcomes and the view of one turn on t as t is now. */
  lemma PlanOne(t: TypeInfo, same: (TypeInfo, TypeInfo) -> bool) returns (snap: PassInputs, view: TypeView, ps: PropertyState, es: EventState, target: TypeView)
    ensures InputsAre(t, snap) && ViewIs(t, view) && SnapViewIs(snap, view) && Kept(t, snap) && Planned(snap, same, ps, es, target)
  {
    view := ViewOf(t);
    snap := InputsOf(t);
    InputsOfCurrent(t);
    ViewOfInputs(t);
    ps := PropertyPassFrom(snap, same);
    es := EventPassFrom(snap, ps.methods);
    target := StepView(snap, ps, es);
  }

  /**
   * The outcomes the loop of DocsPEParser.Parse computes for each of the
   * types ts as they are now: their inputs, their property and event
   * passes and the view each turn leaves.
   */
  lemma Plan(ts: seq<TypeInfo>, same: (TypeInfo, TypeInfo) -> bool)
    returns (ins: seq<PassInputs>, views: seq<TypeView>, ps: seq<PropertyState>, es: seq<EventState>, targets: seq<TypeView>)
    ensures |ins| == |views| == |ps| == |es| == |targets| == |ts|
    ensures forall j :: 0 <= j < |ts| ==> InputsAre(ts[j], ins[j]) && ViewIs(ts[j], views[j]) && SnapViewIs(ins[j], views[j])
    ensures forall j :: 0 <= j < |ts| ==> Kept(ts[j], ins[j]) && Planned(ins[j], same, ps[j], es[j], targets[j])
  {
    if ts == [] {
      return [], [], [], [], [];
    }
    var n := |ts| - 1;
    ins, views, ps, es, targets := Plan(ts[..n], same);
    var snap, view, p, e, target := PlanOne(ts[n], same);
    ins, views, ps, es, targets := ins + [snap], views + [view], ps + [p], es + [e], targets + [target];
  }

  /**
   * The turns of the loop in order, until one throws (k is its index,
   * |ts| when none throws): the types before k show the views of both
   * passes, the type at k what its property pass left, and the types after
   * k the views they showed.
   */
  method RemoveEach(ts: seq<TypeInfo>, same: (TypeInfo, TypeInfo) -> bool, ghost ins: seq<PassInputs>, ghost views: seq<TypeView>,
                    ghost ps: seq<PropertyState>, ghost es: seq<EventState>, ghost targets: seq<TypeView>)
    returns (r: Result<(), Exception>, ghost k: nat)
    requires |ins| == |views| == |ps| == |es| == |targets| == |ts|
    requires forall i, j :: 0 <= i < j < |ts| ==> ts[i] != ts[j]
    requires forall i :: 0 <= i < |ts| ==> ts[i].OwnsMembers()
    requires forall j :: 0 <= j < |ts| ==> ViewIs(ts[j], views[j]) && SnapViewIs(ins[j], views[j])
    requires forall j :: 0 <= j < |ts| ==> Kept(ts[j], ins[j]) && Planned(ins[j], same, ps[j], es[j], targets[j])
    modifies ts`methods, PropertiesOf(ts)`getMethod, PropertiesOf(ts)`setMethod, PropertiesOf(ts)`indexParameters
    modifies EventsOf(ts)`addMethod, EventsOf(ts)`removeMethod
    ensures forall j :: 0 <= j < |ts| ==> Kept(ts[j], ins[j])
    ensures k <= |ts| && (r.Ok? <==> k == |ts|) && (r.Err? ==> r.error == NullReference)
    ensures forall j :: 0 <= j < k ==> !ps[j].stopped && ViewIs(ts[j], targets[j])
    ensures k < |ts| ==> ps[k].stopped && ViewIs(ts[k], targets[k])
    ensures forall j :: k < j < |ts| ==> ViewIs(ts[j], views[j])
  {
    var i := 0;
    while i < |ts|
      invariant 0 <= i <= |ts|
      invariant forall j :: 0 <= j < |ts| ==> ts[j].OwnsMembers() && Kept(ts[j], ins[j])
      invariant forall j :: 0 <= j < i ==> !ps[j].stopped && ViewIs(ts[j], targets[j])
      invariant forall j :: i <= j < |ts| ==> ViewIs(ts[j], views[j]) && SnapViewIs(ins[j], views[j])
    {
      assert ts[i] in ts && ts[i].properties == old(ts[i].properties) && ts[i].events == old(ts[i].events);
      assert forall p :: p in ts[i].properties ==> p in old(PropertiesOf(ts));
      assert forall e :: e in ts[i].events ==> e in old(EventsOf(ts));
      var step := RemoveTurn(ts, i, same, ins, views, ps, es, targets);
      if step.Err? {
        r, k := step, i;
        return;
      }
      i := i + 1;
    }
    r, k := Ok(()), |ts|;
  }

  /** The method nodes the inputs ins list. */
  ghost function MethodNodesIn(ins: seq<PassInputs>): (r: set<MethodInfo>)
    ensures forall i :: 0 <= i < |ins| ==> forall m :: m in ins[i].methods ==> m in r
  {
    set i, m | 0 <= i < |ins| && m in ins[i].methods :: m
  }

  /** The property nodes the inputs ins list. */
  ghost function PropertyNodesIn(ins: seq<PassInputs>): (r: set<PropertyInfo>)
    ensures forall i :: 0 <= i < |ins| ==> forall p :: p in ins[i].properties ==> p in r
  {
    set i, p | 0 <= i < |ins| && p in ins[i].properties :: p
  }

  /** The event nodes the inputs ins list. */
  ghost function EventNodesIn(ins: seq<PassInputs>): (r: set<EventInfo>)
    ensures forall i :: 0 <= i < |ins| ==> forall e :: e in ins[i].events ==> e in r
  {
    set i, e | 0 <= i < |ins| && e in ins[i].events :: e
  }

  /** The parameter nodes whose types the inputs ins record. */
  ghost function ParameterNodesIn(ins: seq<PassInputs>): (r: set<ParameterInfo>)
    ensures forall i :: 0 <= i < |ins| ==> forall q :: q in ins[i].ptypes ==> q in r
  {
    set i, q | 0 <= i < |ins| && q in ins[i].ptypes :: q
  }

  /**
   * Both passes ran on every type of ts, from the inputs ins that it still
   * shows: the property pass did not throw and gave ps[i], the event pass
   * gave es[i], and the type holds the method list and the accessors they
   * leave.
   */
  ghost predicate PassesDone(ts: seq<TypeInfo>, ins: seq<PassInputs>, ps: seq<PropertyState>, es: seq<EventState>, same: (TypeInfo, TypeInfo) -> bool)
    reads ts`methods, ts`properties, ts`events
    reads PropertiesOf(ts)`getMethod, PropertiesOf(ts)`setMethod, PropertiesOf(ts)`indexParameters
    reads EventsOf(ts)`addMethod, EventsOf(ts)`removeMethod
    reads MethodNodesIn(ins)`name, MethodNodesIn(ins)`attributes, MethodNodesIn(ins)`parameters
    reads PropertyNodesIn(ins)`name, EventNodesIn(ins)`name, ParameterNodesIn(ins)`parameterType
  {
    |ins| == |ps| == |es| == |ts|
    && forall i :: 0 <= i < |ts| ==>
      Fixed(ts[i], ins[i]) && Sized(ins[i])
      && ps[i] == PropertyPassFrom(ins[i], same) && es[i] == EventPassFrom(ins[i], ps[i].methods)
      && !ps[i].stopped && AccessorsMoved(ts[i], ps[i], es[i])
  }

  /**
   * The loop of DocsPEParser.Parse over the provider's types: for each type
   * in turn the property pass, then the event pass on the method list the
   * property pass leaves. The types are distinct and own their properties
   * and events, so the passes of one type leave every other type as it
   * was. The first type whose property pass throws ends the loop (k is its
   * index, |ts| when none throws): the types before it have both passes
   * done, it keeps what its property pass moved, and the types after it
   * are untouched.
   */
  method RemoveAccessors(ts: seq<TypeInfo>, same: (TypeInfo, TypeInfo) -> bool)
    returns (r: Result<(), Exception>, ghost k: nat, ghost ins: seq<PassInputs>, ghost ps: seq<PropertyState>, ghost es: seq<EventState>)
    requires forall i, j :: 0 <= i < j < |ts| ==> ts[i] != ts[j]
    requires forall i :: 0 <= i < |ts| ==> ts[i].OwnsMembers()
    modifies ts`methods, PropertiesOf(ts)`getMethod, PropertiesOf(ts)`setMethod, PropertiesOf(ts)`indexParameters
    modifies EventsOf(ts)`addMethod, EventsOf(ts)`removeMethod
    ensures |ins| == |ps| == |es| == |ts|
    ensures forall i :: 0 <= i < |ts| ==> ins[i] == old(InputsOf(ts[i])) && Fixed(ts[i], ins[i])
    ensures forall i :: 0 <= i < |ts| ==> Sized(ins[i]) && ps[i] == PropertyPassFrom(ins[i], same) && es[i] == EventPassFrom(ins[i], ps[i].methods)
    ensures k <= |ts| && (r.Ok? <==> k == |ts|) && (r.Err? ==> r.error == NullReference)
    ensures forall i :: 0 <= i < k ==> !ps[i].stopped && AccessorsMoved(ts[i], ps[i], es[i])
    ensures k < |ts| ==> ps[k].stopped && PropertiesReflect(ts[k], ts[k].properties, ps[k])
    ensures k < |ts| ==> AccessorsCurrent(ts[k].events, ins[k].eventAccessors)
    ensures forall i :: k < i < |ts| ==> ViewOf(ts[i]) == old(ViewOf(ts[i]))
  {
    ghost var views, targets;
    ins, views, ps, es, targets := Plan(ts, same);
    r, k := RemoveEach(ts, same, ins, views, ps, es, targets);
    Moved(ts, ins, ps, es, targets, k);
    if k < |ts| {
      Stopped(ts[k], ins[k], ps[k], es[k], targets[k]);
    }
  }

  /**
   * RemoveAccessors as the parser sees it: a pass that throws gives
   * NullReference, and when none throws every type of ts has both passes
   * done.
   */
  method RunAccessorPasses(ts: seq<TypeInfo>, same: (TypeInfo, TypeInfo) -> bool)
    returns (r: Result<(), Exception>, ghost ins: seq<PassInputs>, ghost ps: seq<PropertyState>, ghost es: seq<EventState>)
    requires forall i, j :: 0 <= i < j < |ts| ==> ts[i] != ts[j]
    requires forall i :: 0 <= i < |ts| ==> ts[i].OwnsMembers()
    modifies ts`methods, PropertiesOf(ts)`getMethod, PropertiesOf(ts)`setMethod, PropertiesOf(ts)`indexParameters
    modifies EventsOf(ts)`addMethod, EventsOf(ts)`removeMethod
    ensures old(allocated(ins)) && old(AllInputsAre(ins, ts))
    ensures r.Err? ==> r.error == NullReference
    ensures r.Ok? ==> PassesDone(ts, ins, ps, es, same)
  {
    ghost var k;
    r, k, ins, ps, es := RemoveAccessors(ts, same);
  }

  /** The types before k show the views of both passes on their inputs, so both passes are done on them. */
  lemma Moved(ts: seq<TypeInfo>, ins: seq<PassInputs>, ps: seq<PropertyState>, es: seq<EventState>, targets: seq<TypeView>, k: nat)
    requires k <= |ts| == |ins| == |ps| == |es| == |targets|
    requires forall j :: 0 <= j < |ts| ==> Fixed(ts[j], ins[j]) && StepViewIs(ins[j], ps[j], es[j], targets[j])
    requires forall j :: 0 <= j < k ==> !ps[j].stopped && ViewOf(ts[j]) == targets[j]
    ensures forall j :: 0 <= j < k ==> AccessorsMoved(ts[j], ps[j], es[j])
  {
    forall j | 0 <= j < k
      ensures AccessorsMoved(ts[j], ps[j], es[j])
    {
      assert ViewOf(ts[j]) == StepView(ins[j], ps[j], es[j]);
      ViewMoved(ts[j], ps[j], es[j]);
    }
  }

  /** The type whose property pass threw keeps what that pass moved and the accessors its events had. */
  lemma Stopped(t: TypeInfo, snap: PassInputs, ps: PropertyState, es: EventState, target: TypeView)
    requires Fixed(t, snap) && ps.stopped && StepViewIs(snap, ps, es, target) && ViewOf(t) == target
    ensures PropertiesReflect(t, t.properties, ps) && AccessorsCurrent(t.events, snap.eventAccessors)
  {
    assert ViewOf(t) == StepView(snap, ps, es);
    ViewStopped(t, ps, snap.eventAccessors);
  }
}
