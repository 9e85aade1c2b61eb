/**
 * The text formatting of DocPluck.Debug's TypeDebugPrinter: type display
 * names, parameter lists, the generic where-clauses and the one-line form of
 * a delegate. The printer only reads the reflection model, so it is modelled
 * over a value view of the DocsTypeInfo fields it reads.
 */
module TypeDebugPrinter {
  import opened Wrappers
  import opened Strings
  import opened Accessibility
  import opened GenericParameterFlags

  /** What the printer reads of a DocsTypeInfo. */
  datatype TypeView = TypeView(
    isGenericParameter: bool,
    isGenericTypeDefinition: bool,
    isGenericType: bool,
    name: string,
    fullName: string,
    genericParameterAttributes: bv32,
    genericArguments: seq<TypeView>,
    genericParameterConstraints: seq<TypeView>)

  /** The local Flags of GetTypeDisplayName: the variance keyword of a generic parameter, empty (null) otherwise. */
  function VariancePrefix(attributes: bv32): (r: string)
    ensures r == "out " <==> Variance(attributes) == Covariant
    ensures r == "in " <==> Variance(attributes) == Contravariant
    ensures r == "" <==> Variance(attributes) != Covariant && Variance(attributes) != Contravariant
  {
    if Variance(attributes) == Covariant then "out "
    else if Variance(attributes) == Contravariant then "in "
    else ""
  }

  /** Only the variance bits decide the prefix. */
  lemma {:induction false} VarianceOnlyBits(a: bv32, b: bv32)
    requires a & VarianceMask == b & VarianceMask
    ensures VariancePrefix(a) == VariancePrefix(b)
  {
  }

  /**
   * GetTypeDisplayName: a generic parameter by its name; a generic
   * definition by its full name and its parameters with their variance; a
   * constructed generic by its full name and its arguments' display names;
   * anything else by its full name.
   */
  function DisplayName(t: TypeView): (r: string)
    ensures t.isGenericParameter ==> r == t.name
    ensures !t.isGenericParameter ==> StartsWith(r, t.fullName)
    ensures !t.isGenericParameter && (t.isGenericTypeDefinition || t.isGenericType) ==>
      (EndsWith(r, ">") && |r| > |t.fullName| && r[|t.fullName|] == '<')
    ensures !t.isGenericParameter && !t.isGenericTypeDefinition && !t.isGenericType ==> r == t.fullName
    decreases t, 1
  {
    if t.isGenericParameter then t.name
    else if t.isGenericTypeDefinition then t.fullName + "<" + Join(", ", ParameterNames(t.genericArguments)) + ">"
    else if t.isGenericType then t.fullName + "<" + Join(", ", DisplayNames(t, t.genericArguments)) + ">"
    else t.fullName
  }

  /** Flags(g) + g.Name over the parameters of a generic definition. */
  function ParameterNames(args: seq<TypeView>): (r: seq<string>)
    ensures |r| == |args|
    ensures forall i :: 0 <= i < |args| ==> r[i] == VariancePrefix(args[i].genericParameterAttributes) + args[i].name
  {
    seq(|args|, i requires 0 <= i < |args| => VariancePrefix(args[i].genericParameterAttributes) + args[i].name)
  }

  /** The display names of some of a type's own arguments or constraints. */
  function DisplayNames(owner: TypeView, ts: seq<TypeView>): (r: seq<string>)
    requires forall t :: t in ts ==> t < owner
    ensures |r| == |ts|
    ensures forall i :: 0 <= i < |ts| ==> r[i] == assert ts[i] in ts; DisplayName(ts[i])
    decreases owner, 0
  {
    seq(|ts|, i requires 0 <= i < |ts| => assert ts[i] in ts; DisplayName(ts[i]))
  }

  /** How often a character occurs in a string. */
  function Occurrences(s: string, c: char): (r: nat)
    ensures r <= |s|
    ensures r == 0 <==> c !in s
  {
    if s == [] then 0 else (if s[0] == c then 1 else 0) + Occurrences(s[1..], c)
  }

  lemma {:induction false} OccurrencesAppend(a: string, b: string, c: char)
    ensures Occurrences(a + b, c) == Occurrences(a, c) + Occurrences(b, c)
    decreases |a|
  {
    if a == [] {
      assert a + b == b;
    } else {
      assert (a + b)[0] == a[0] && (a + b)[1..] == a[1..] + b;
      OccurrencesAppend(a[1..], b, c);
    }
  }

  lemma {:induction false} OccurrencesSingle(x: char, c: char)
    ensures Occurrences([x], c) == if x == c then 1 else 0
  {
    assert [x][1..] == [];
  }

  /** As many '<' as '>'. */
  predicate Balanced(s: string)
  {
    Occurrences(s, '<') == Occurrences(s, '>')
  }

  lemma {:induction false} BalancedAppend(a: string, b: string)
    requires Balanced(a) && Balanced(b)
    ensures Balanced(a + b)
  {
    OccurrencesAppend(a, b, '<');
    OccurrencesAppend(a, b, '>');
  }

  /** Joining balanced parts with ", " gives a balanced string. */
  lemma {:induction false} JoinBalanced(parts: seq<string>)
    requires forall i :: 0 <= i < |parts| ==> Balanced(parts[i])
    ensures Balanced(Join(", ", parts))
    decreases |parts|
  {
    if |parts| >= 2 {
      JoinBalanced(parts[1..]);
      assert Balanced(parts[0]);
      assert Balanced(", ");
      BalancedAppend(parts[0], ", ");
      BalancedAppend(parts[0] + ", ", Join(", ", parts[1..]));
    } else if |parts| == 1 {
      assert Balanced(parts[0]);
    }
  }

  /** No name or full name in the view holds an angle bracket. */
  predicate PlainNames(t: TypeView)
    decreases t
  {
    '<' !in t.name && '>' !in t.name && '<' !in t.fullName && '>' !in t.fullName
    && forall i :: 0 <= i < |t.genericArguments| ==> PlainNames(t.genericArguments[i])
  }

  /** With plain names, every '<' a display name opens is closed by a '>'. */
  lemma {:induction false} DisplayNameBalanced(t: TypeView)
    requires PlainNames(t)
    ensures Balanced(DisplayName(t))
    decreases t
  {
    assert Balanced(t.name) && Balanced(t.fullName);
    if !t.isGenericParameter && (t.isGenericTypeDefinition || t.isGenericType) {
      var parts := if t.isGenericTypeDefinition then ParameterNames(t.genericArguments)
        else DisplayNames(t, t.genericArguments);
      forall i | 0 <= i < |parts| ensures Balanced(parts[i]) {
        var g := t.genericArguments[i];
        if t.isGenericTypeDefinition {
          assert Balanced(VariancePrefix(g.genericParameterAttributes)) && Balanced(g.name);
          BalancedAppend(VariancePrefix(g.genericParameterAttributes), g.name);
        } else {
          DisplayNameBalanced(g);
        }
      }
      JoinBalanced(parts);
      var joined := Join(", ", parts);
      assert "<" == ['<'] && ">" == ['>'];
      OccurrencesSingle('<', '<');
      OccurrencesSingle('<', '>');
      OccurrencesSingle('>', '<');
      OccurrencesSingle('>', '>');
      OccurrencesAppend(t.fullName, "<", '<');
      OccurrencesAppend(t.fullName, "<", '>');
      OccurrencesAppend(t.fullName + "<", joined, '<');
      OccurrencesAppend(t.fullName + "<", joined, '>');
      OccurrencesAppend(t.fullName + "<" + joined, ">", '<');
      OccurrencesAppend(t.fullName + "<" + joined, ">", '>');
    }
  }

  /** What the printer reads of a DocsParameterInfo; defaultValue is None for a null default. */
  datatype ParameterView = ParameterView(
    isOut: bool,
    isIn: bool,
    parameterType: TypeView,
    name: string,
    hasDefaultValue: bool,
    defaultValue: Option<string>)

  /** The "out "/"in " modifiers, the type, a space and the name. */
  function ParameterHead(p: ParameterView): string
  {
    (if p.isOut then "out " else "") + (if p.isIn then "in " else "") + DisplayName(p.parameterType) + " " + p.name
  }

  /** One parameter of GetParametersString: its head, then " = " and the default (or "null") when it has one. */
  function ParameterText(p: ParameterView): (r: string)
    ensures StartsWith(r, ParameterHead(p))
    ensures !p.hasDefaultValue ==> r == ParameterHead(p)
    ensures p.hasDefaultValue ==> r[|ParameterHead(p)|..] == " = " + (if p.defaultValue.Some? then p.defaultValue.value else "null")
  {
    ParameterHead(p) + (if p.hasDefaultValue then " = " + (if p.defaultValue.Some? then p.defaultValue.value else "null") else "")
  }

  /** GetParametersString: the parameters' texts joined by ", ". */
  function ParametersString(ps: seq<ParameterView>): (r: string)
    ensures ps == [] ==> r == ""
    ensures |ps| == 1 ==> r == ParameterText(ps[0])
    ensures |ps| > 1 ==> StartsWith(r, ParameterText(ps[0]) + ", ")
  {
    Join(", ", seq(|ps|, i requires 0 <= i < |ps| => ParameterText(ps[i])))
  }

  /** No parameters print nothing; one more parameter adds ", " and its text. */
  lemma {:induction false} ParametersStringSnoc(ps: seq<ParameterView>, p: ParameterView)
    ensures ParametersString([]) == ""
    ensures ParametersString(ps + [p]) == if ps == [] then ParameterText(p) else ParametersString(ps) + ", " + ParameterText(p)
  {
    var texts := seq(|ps|, i requires 0 <= i < |ps| => ParameterText(ps[i]));
    assert seq(|ps + [p]|, i requires 0 <= i < |ps + [p]| => ParameterText((ps + [p])[i])) == texts + [ParameterText(p)];
    JoinSnoc(", ", texts, ParameterText(p));
  }

  /**
   * The special keyword of a generic parameter: "class" or "struct" only
   * when the special-constraint bits are exactly that one flag.
   */
  function SpecialKeyword(attributes: bv32): (r: Option<string>)
    ensures r == Some("class") <==> SpecialConstraints(attributes) == ReferenceTypeConstraint
    ensures r == Some("struct") <==> SpecialConstraints(attributes) == NotNullableValueTypeConstraint
    ensures r.None? <==>
      (SpecialConstraints(attributes) != ReferenceTypeConstraint
       && SpecialConstraints(attributes) != NotNullableValueTypeConstraint)
  {
    if SpecialConstraints(attributes) == ReferenceTypeConstraint then Some("class")
    else if SpecialConstraints(attributes) == NotNullableValueTypeConstraint then Some("struct")
    else None
  }

  /** "new()" exactly when the special-constraint bits are that flag alone. */
  predicate PrintsNew(attributes: bv32)
  {
    SpecialConstraints(attributes) == DefaultConstructorConstraint
  }

  /** The constraints the where-clause of one parameter lists: the special keyword, the type constraints in order, "new()". */
  function ConstraintItems(g: TypeView): (r: seq<string>)
    ensures |r| == |g.genericParameterConstraints|
      + (if SpecialKeyword(g.genericParameterAttributes).Some? then 1 else 0)
      + (if PrintsNew(g.genericParameterAttributes) then 1 else 0)
  {
    var keyword := SpecialKeyword(g.genericParameterAttributes);
    (if keyword.Some? then [keyword.value] else [])
    + DisplayNames(g, g.genericParameterConstraints)
    + (if PrintsNew(g.genericParameterAttributes) then ["new()"] else [])
  }

  /** The keyword comes first, "new()" last, the constraints in order between; combined special bits print neither. */
  lemma {:induction false} ConstraintItemsOrder(g: TypeView)
    ensures SpecialConstraints(g.genericParameterAttributes) == ReferenceTypeConstraint ==> ConstraintItems(g)[0] == "class"
    ensures SpecialConstraints(g.genericParameterAttributes) == NotNullableValueTypeConstraint ==> ConstraintItems(g)[0] == "struct"
    ensures PrintsNew(g.genericParameterAttributes) ==>
      (ConstraintItems(g)[|ConstraintItems(g)| - 1] == "new()" && SpecialKeyword(g.genericParameterAttributes).None?)
    ensures var k := if SpecialKeyword(g.genericParameterAttributes).Some? then 1 else 0;
      forall i :: 0 <= i < |g.genericParameterConstraints| ==>
        ConstraintItems(g)[k + i] == DisplayName(g.genericParameterConstraints[i])
    ensures !PrintsNew(g.genericParameterAttributes) && SpecialKeyword(g.genericParameterAttributes).None? ==>
      ConstraintItems(g) == DisplayNames(g, g.genericParameterConstraints)
  {
  }

  /** The clause of a parameter that has constraints: " where T : " and the constraints joined by ", ". */
  function Clause(g: TypeView): string
  {
    ClauseOf(g, ConstraintItems(g))
  }

  /** " where T : " and the given constraints joined by ", ". */
  function ClauseOf(g: TypeView, items: seq<string>): string
  {
    " where " + g.name + " : " + Join(", ", items)
  }

  /** The clauses of the parameters that have any constraint, in order. */
  function Clauses(args: seq<TypeView>): (r: seq<string>)
    ensures |r| <= |args|
  {
    if args == [] then []
    else
      var g := args[|args| - 1];
      Clauses(args[..|args| - 1]) + (if ConstraintItems(g) != [] then [Clause(g)] else [])
  }

  /** The text a parameter's clause has written once some of its constraints are out. */
  function Opened(isFirst: bool, g: TypeView, written: seq<string>): string
  {
    if written == [] then "" else (if isFirst then "" else ", ") + ClauseOf(g, written)
  }

  lemma {:induction false} OpenedSnoc(isFirst: bool, g: TypeView, written: seq<string>, x: string)
    ensures Opened(isFirst, g, written + [x]) == Opened(isFirst, g, written)
      + (if written == [] then (if isFirst then "" else ", ") + " where " + g.name + " : " else ", ") + x
  {
    JoinSnoc(", ", written, x);
  }

  /**
   * The local Separator of PrintTypes: ", " between the constraints of one
   * parameter; before its first, ", " unless it is the first clause, then
   * " where T : ".
   */
  method Separator(started: bool, isFirst: bool, g: TypeView) returns (text: string, startedAfter: bool, isFirstAfter: bool)
    ensures startedAfter
    ensures started ==> text == ", " && isFirstAfter == isFirst
    ensures !started ==> text == (if isFirst then "" else ", ") + " where " + g.name + " : " && !isFirstAfter
  {
    if started {
      return ", ", true, isFirst;
    }
    text := "";
    if isFirst {
      isFirstAfter := false;
    } else {
      isFirstAfter := false;
      text := text + ", ";
    }
    text := text + " where " + g.name + " : ";
    startedAfter := true;
  }

  /** Separator, then one constraint, as one step of the clause being written. */
  method WriteConstraint(out: string, started: bool, isFirst: bool, ghost before: string, ghost wasFirst: bool,
                         g: TypeView, ghost written: seq<string>, x: string)
    returns (outAfter: string, startedAfter: bool, isFirstAfter: bool)
    requires started <==> written != []
    requires isFirst == (wasFirst && !started)
    requires out == before + Opened(wasFirst, g, written)
    ensures startedAfter && !isFirstAfter
    ensures outAfter == before + Opened(wasFirst, g, written + [x])
  {
    var text;
    text, startedAfter, isFirstAfter := Separator(started, isFirst, g);
    outAfter := out + text + x;
    OpenedSnoc(wasFirst, g, written, x);
  }

  /** One pass of the where-clause loop: the clause of one parameter, if it has any constraint. */
  method WriteClause(out: string, isFirst: bool, g: TypeView) returns (outAfter: string, isFirstAfter: bool)
    ensures ConstraintItems(g) == [] ==> outAfter == out && isFirstAfter == isFirst
    ensures ConstraintItems(g) != [] ==> outAfter == out + (if isFirst then "" else ", ") + Clause(g) && !isFirstAfter
  {
    outAfter, isFirstAfter := out, isFirst;
    ghost var written: seq<string> := [];
    var started := false;
    var keyword := SpecialKeyword(g.genericParameterAttributes);
    if keyword.Some? {
      outAfter, started, isFirstAfter := WriteConstraint(outAfter, started, isFirstAfter, out, isFirst, g, written, keyword.value);
      written := written + [keyword.value];
    }
    for m := 0 to |g.genericParameterConstraints|
      invariant started <==> written != []
      invariant isFirstAfter == (isFirst && !started)
      invariant outAfter == out + Opened(isFirst, g, written)
      invariant written == (if keyword.Some? then [keyword.value] else [])
        + DisplayNames(g, g.genericParameterConstraints[..m])
    {
      var name := DisplayName(g.genericParameterConstraints[m]);
      outAfter, started, isFirstAfter := WriteConstraint(outAfter, started, isFirstAfter, out, isFirst, g, written, name);
      DisplayNamesSnoc(g, m);
      written := written + [name];
    }
    assert g.genericParameterConstraints[..|g.genericParameterConstraints|] == g.genericParameterConstraints;
    if PrintsNew(g.genericParameterAttributes) {
      outAfter, started, isFirstAfter := WriteConstraint(outAfter, started, isFirstAfter, out, isFirst, g, written, "new()");
      written := written + ["new()"];
    }
    assert written == ConstraintItems(g);
    if written != [] {
      ClauseClosed(out, isFirst, g);
    }
  }

  /** The display names of one more constraint. */
  lemma {:induction false} DisplayNamesSnoc(g: TypeView, m: nat)
    requires m < |g.genericParameterConstraints|
    ensures DisplayNames(g, g.genericParameterConstraints[..m + 1])
      == DisplayNames(g, g.genericParameterConstraints[..m]) + [DisplayName(g.genericParameterConstraints[m])]
  {
  }

  /** A clause with all its constraints written is the whole clause after its lead. */
  lemma {:induction false} ClauseClosed(out: string, isFirst: bool, g: TypeView)
    requires ConstraintItems(g) != []
    ensures out + Opened(isFirst, g, ConstraintItems(g)) == out + (if isFirst then "" else ", ") + Clause(g)
  {
  }

  /** The where-clause loop of PrintTypes for a generic type definition: the clauses joined by ", ". */
  method WhereClauses(args: seq<TypeView>) returns (out: string)
    ensures out == Join(", ", Clauses(args))
  {
    out := "";
    var isFirst := true;
    for k := 0 to |args|
      invariant out == Join(", ", Clauses(args[..k]))
      invariant isFirst <==> Clauses(args[..k]) == []
    {
      ghost var done := Clauses(args[..k]);
      out, isFirst := WriteClause(out, isFirst, args[k]);
      ClausesSnoc(args, k);
      if ConstraintItems(args[k]) != [] {
        JoinSnoc(", ", done, Clause(args[k]));
        if done == [] {
          assert out == Clause(args[k]);
        } else {
          assert out == Join(", ", done) + ", " + Clause(args[k]);
        }
      } else {
        assert Clauses(args[..k + 1]) == done;
      }
    }
    assert args[..|args|] == args;
  }

  /** The clauses of one more parameter. */
  lemma {:induction false} ClausesSnoc(args: seq<TypeView>, k: nat)
    requires k < |args|
    ensures Clauses(args[..k + 1]) == Clauses(args[..k]) + (if ConstraintItems(args[k]) != [] then [Clause(args[k])] else [])
  {
    assert args[..k + 1][..k] == args[..k];
  }

  /** What the printer reads of a method: its name, return type and parameters. */
  datatype MethodView = MethodView(name: string, returnType: TypeView, parameters: seq<ParameterView>)

  /** First(m => m.Name == "Invoke"): the first method named Invoke, None where First throws. */
  function FirstInvoke(methods: seq<MethodView>): (r: Option<MethodView>)
    ensures r.None? <==> forall i :: 0 <= i < |methods| ==> methods[i].name != "Invoke"
    ensures r.Some? ==> exists i :: (0 <= i < |methods| && methods[i] == r.value && r.value.name == "Invoke"
      && forall j :: 0 <= j < i ==> methods[j].name != "Invoke")
  {
    if methods == [] then None
    else if methods[0].name == "Invoke" then Some(methods[0])
    else
      var rest := FirstInvoke(methods[1..]);
      assert forall i :: 1 <= i < |methods| ==> methods[i] == methods[1..][i - 1];
      assert rest.Some? ==> exists i :: (0 <= i < |methods| && methods[i] == rest.value && rest.value.name == "Invoke"
        && forall j :: 0 <= j < i ==> methods[j].name != "Invoke") by {
        if rest.Some? {
          var k :| (0 <= k < |methods[1..]| && methods[1..][k] == rest.value && rest.value.name == "Invoke"
            && forall j :: 0 <= j < k ==> methods[1..][j].name != "Invoke");
          assert forall j :: 0 <= j < k + 1 ==> methods[j].name != "Invoke";
        }
      }
      rest
  }

  /**
   * The line PrintTypes writes for a delegate: its accessibility, the
   * Invoke method's return type, the delegate's display name and the Invoke
   * parameters. A delegate without Invoke makes First throw.
   */
  function DelegateLine(level: Level, t: TypeView, methods: seq<MethodView>): (r: Result<string, Exception>)
    ensures r.Err? <==> FirstInvoke(methods).None?
    ensures r.Err? ==> r.error == InvalidOperation
  {
    var invoke := FirstInvoke(methods);
    if invoke.None? then Err(InvalidOperation)
    else Ok(Keyword(level) + " " + DisplayName(invoke.value.returnType) + " " + DisplayName(t)
      + "(" + ParametersString(invoke.value.parameters) + ");")
  }

  /** The delegate line is the keyword, the Invoke signature and the parameter list in parentheses. */
  lemma {:induction false} DelegateLineShape(level: Level, t: TypeView, methods: seq<MethodView>)
    requires FirstInvoke(methods).Some?
    ensures var invoke := FirstInvoke(methods).value;
      var head := Keyword(level) + " " + DisplayName(invoke.returnType) + " " + DisplayName(t) + "(";
      StartsWith(DelegateLine(level, t, methods).value, head)
      && DelegateLine(level, t, methods).value[|head|..] == ParametersString(invoke.parameters) + ");"
  {
  }
}
