/**
 * Documentation ID strings ("crefs") as defined by ECMA-334 Annex D,
 * section D.4.2: a kind letter, a colon and a dotted name, e.g.
 * "T:N.Type" or "M:N.T.Foo(System.Int32)".
 */
module CodeReferences {
  import opened Wrappers
  import opened Strings

  datatype Kind = Namespace | Type | Field | Property | Method | Event | ErrorString

  /**
   * A parsed ID string. Namespace and error crefs keep the whole remainder in
   * ns; a type cref has a type name; a member cref has both names, and the
   * member name keeps its parenthesised parameter list.
   * The C# class has no Equals override, so two parses of one string are
   * distinct objects; code that keys on them is modelled without merging.
   */
  datatype CodeReference = CodeReference(kind: Kind, ns: string, typeName: Option<string>, memberName: Option<string>)

  /** The kind letters of the ID-string grammar. */
  function KindChar(k: Kind): char
  {
    match k
    case Namespace => 'N'
    case Type => 'T'
    case Field => 'F'
    case Property => 'P'
    case Method => 'M'
    case Event => 'E'
    case ErrorString => '!'
  }

  /** The kind table of Parse, the exact inverse of KindChar; a letter outside it has no kind. */
  function KindOf(c: char): (r: Option<Kind>)
    ensures r.Some? ==> KindChar(r.value) == c
    ensures forall k :: KindChar(k) == c ==> r == Some(k)
    ensures r.None? <==> c !in "NTFMEP!"
  {
    match c
    case 'N' => Some(Namespace)
    case 'T' => Some(Type)
    case 'F' => Some(Field)
    case 'M' => Some(Method)
    case 'E' => Some(Event)
    case 'P' => Some(Property)
    case '!' => Some(ErrorString)
    case _ => None
  }

  /** A null string interpolates as the empty string. */
  function Str(o: Option<string>): string
  {
    if o.Some? then o.value else ""
  }

  /** The part of s before its first '(' (all of s when there is none). */
  function BeforeParen(s: string): (r: string)
    ensures |r| <= |s|
  {
    var i := IndexOf(s, '(');
    if i < 0 then s else s[..i]
  }

  /** The part before the first '(' holds no '('. */
  lemma {:induction false} BeforeParenIsPrefix(s: string)
    ensures BeforeParen(s) == s[..|BeforeParen(s)|]
    ensures |BeforeParen(s)| < |s| ==> s[|BeforeParen(s)|] == '('
  {
  }

  /** The part before the first '(' holds no '('. */
  lemma {:induction false} BeforeParenHasNone(s: string)
    ensures '(' !in BeforeParen(s)
  {
    IndexOfFirst(s, '(');
  }

  /** CodeReference.ToString */
  function Format(c: CodeReference): (r: string)
    ensures |r| >= 2 && r[0] == KindChar(c.kind) && r[1] == ':'
    ensures IsBareKind(c.kind) ==> r[2..] == c.ns
    ensures !IsBareKind(c.kind) ==> StartsWith(r[2..], c.ns + ".")
  {
    match c.kind
    case Namespace => [KindChar(c.kind), ':'] + c.ns
    case ErrorString => [KindChar(c.kind), ':'] + c.ns
    case Type => "T:" + (c.ns + "." + Str(c.typeName))
    case _ => [KindChar(c.kind), ':'] + (c.ns + "." + Str(c.typeName) + "." + Str(c.memberName))
  }

  /** Where Parse starts its backward search for dots: just before the first '(', else the last index. */
  function SearchStart(r: string): (i: int)
    ensures i == |BeforeParen(r)| - 1
  {
    var fb := IndexOf(r, '(');
    if fb < 0 then |r| - 1 else fb - 1
  }

  /**
   * The split Parse makes for a type cref: at the last dot before the first
   * '('. LastIndexOf throws for a start index of -1, Substring for a length of -1.
   */
  function SplitType(r: string): (res: Result<(string, string), Exception>)
    requires |r| > 0
    ensures res.Ok? ==> |res.value.0| < |r|
  {
    var start := SearchStart(r);
    if start < 0 then Err(ArgumentOutOfRange("startIndex"))
    else
      var lastDot := LastIndexOf(r, '.', start);
      if lastDot < 0 then Err(ArgumentOutOfRange("length"))
      else Ok((r[..lastDot], r[lastDot + 1..]))
  }

  /**
   * The split Parse makes for a field, property, method or event cref: at the
   * last two dots before the first '(', so dots inside a parameter list
   * never split.
   */
  function SplitMember(r: string): (res: Result<(string, string, string), Exception>)
    requires |r| > 0
    ensures res.Ok? ==> |res.value.0| + |res.value.1| + 1 < |r|
  {
    var start := SearchStart(r);
    if start < 0 then Err(ArgumentOutOfRange("startIndex"))
    else
      var lastDot := LastIndexOf(r, '.', start);
      if lastDot - 1 < 0 then Err(ArgumentOutOfRange("startIndex"))
      else
        var last2Dot := LastIndexOf(r, '.', lastDot - 1);
        if last2Dot < 0 then Err(ArgumentOutOfRange("length"))
        else Ok((r[..last2Dot], r[last2Dot + 1..lastDot], r[lastDot + 1..]))
  }

  /** A successful type split rejoins to r, with no '(' on the left and no dot before the right part's first '('. */
  lemma {:induction false} SplitTypeParts(r: string)
    requires |r| > 0
    ensures var res := SplitType(r);
      res.Ok? ==> (r == res.value.0 + "." + res.value.1
        && '(' !in res.value.0 && '.' !in BeforeParen(res.value.1))
  {
    var start := SearchStart(r);
    if start >= 0 {
      SplitAtDot(r, start, LastIndexOf(r, '.', start));
    }
  }

  /** A successful member split rejoins to r, and only the last part may hold a dot, after its first '('. */
  lemma {:induction false} SplitMemberParts(r: string)
    requires |r| > 0
    ensures var res := SplitMember(r);
      res.Ok? ==> (r == res.value.0 + "." + res.value.1 + "." + res.value.2
        && '(' !in res.value.0 && '(' !in res.value.1 && '.' !in res.value.1
        && '.' !in BeforeParen(res.value.2))
  {
    var start := SearchStart(r);
    if start >= 0 {
      var lastDot := LastIndexOf(r, '.', start);
      SplitAtDot(r, start, lastDot);
      if lastDot - 1 >= 0 {
        var last2Dot := LastIndexOf(r, '.', lastDot - 1);
        if last2Dot >= 0 {
          LastIndexOfLast(r, '.', lastDot - 1);
          SplitBetweenDots(r, last2Dot, lastDot);
          assert r == r[..lastDot] + "." + r[lastDot + 1..];
        }
      }
    }
  }

  /** Two dots with none between them cut the prefix before the second into three parts. */
  lemma {:induction false} SplitBetweenDots(r: string, d2: int, d1: int)
    requires 0 <= d2 < d1 < |r| && r[d2] == '.'
    requires forall j :: d2 < j <= d1 - 1 ==> r[j] != '.'
    ensures r[..d1] == r[..d2] + "." + r[d2 + 1..d1]
    ensures '.' !in r[d2 + 1..d1]
  {
    assert r[..d1] == r[..d2] + "." + r[d2 + 1..d1];
    var mid := r[d2 + 1..d1];
    forall j | 0 <= j < |mid| ensures mid[j] != '.' {
      assert mid[j] == r[d2 + 1 + j];
    }
  }

  /**
   * Splitting r at the last dot d found at or before the search start: r is
   * rebuilt by joining the halves with a dot, the left half has no '(' and
   * the right half has no dot before its own first '('.
   */
  lemma {:induction false} SplitAtDot(r: string, start: int, d: int)
    requires 0 <= start < |r|
    requires start == SearchStart(r)
    requires d == LastIndexOf(r, '.', start)
    ensures d >= 0 ==> (r == r[..d] + "." + r[d + 1..] && '(' !in r[..d]
      && '.' !in BeforeParen(r[d + 1..]))
  {
    if d >= 0 {
      assert r == r[..d] + "." + r[d + 1..];
      NoParenBefore(r, d);
      NoDotAfter(r, start, d);
    }
  }

  /** Up to the search start nothing is a '('. */
  lemma {:induction false} NoParenBefore(r: string, d: int)
    requires 0 <= d < |BeforeParen(r)|
    ensures '(' !in r[..d] && '(' !in r[..d + 1]
  {
    BeforeParenHasNone(r);
    BeforeParenIsPrefix(r);
    assert r[..d + 1] == BeforeParen(r)[..d + 1];
    assert r[..d] == BeforeParen(r)[..d];
  }

  /** After the last dot up to the search start, the rest has no dot before its own first '('. */
  lemma {:induction false} NoDotAfter(r: string, start: int, d: int)
    requires 0 <= d <= start < |r| && start == SearchStart(r)
    requires d == LastIndexOf(r, '.', start)
    ensures '.' !in BeforeParen(r[d + 1..])
  {
    var t := r[d + 1..];
    assert r == r[..d + 1] + t;
    NoParenBefore(r, d);
    IndexOfAppend(r[..d + 1], t, '(');
    BeforeParenIsPrefix(t);
    LastIndexOfLast(r, '.', start);
    forall i | 0 <= i < |BeforeParen(t)| ensures BeforeParen(t)[i] != '.' {
      assert BeforeParen(t)[i] == r[d + 1 + i];
    }
  }

  /** Namespace and error crefs keep the whole name; the others are split at dots. */
  predicate IsBareKind(k: Kind)
  {
    k == Namespace || k == ErrorString
  }

  /** The part of Parse after the "K:" prefix has been checked. */
  function ParseName(kind: Kind, r: string): (res: Result<CodeReference, Exception>)
    requires |r| > 0
    ensures res.Ok? ==> res.value.kind == kind
    ensures res.Ok? && IsBareKind(kind) ==> res.value == CodeReference(kind, r, None, None)
  {
    if IsBareKind(kind) then Ok(CodeReference(kind, r, None, None))
    else if kind == Type then
      match SplitType(r)
      case Err(e) => Err(e)
      case Ok((ns, t)) => Ok(CodeReference(Type, ns, Some(t), None))
    else
      match SplitMember(r)
      case Err(e) => Err(e)
      case Ok((ns, t, m)) =>
        Ok(CodeReference(kind, ns, Some(t), Some(m)))
  }

  /**
   * CodeReference.Parse. Null throws ArgumentNullException; a short input, a
   * missing colon or an unknown kind letter throws ArgumentException; too few
   * dots before the first '(' make LastIndexOf or Substring throw
   * ArgumentOutOfRangeException.
   */
  function Parse(input: Option<string>): (r: Result<CodeReference, Exception>)
    ensures input.None? ==> r == Err(ArgumentNull("input"))
    ensures input.Some? && (|input.value| < 3 || input.value[1] != ':' || KindOf(input.value[0]).None?)
      ==> r == Err(Argument("input"))
    ensures r.Ok? ==> input.Some? && |input.value| >= 3 && input.value[1] == ':'
    ensures r.Ok? ==> r.value.kind == KindOf(input.value[0]).value
    ensures r.Ok? && IsBareKind(r.value.kind) ==>
      r.value.ns == input.value[2..] && r.value.typeName.None? && r.value.memberName.None?
  {
    if input.None? then Err(ArgumentNull("input"))
    else
      var s := input.value;
      if |s| < 3 || s[1] != ':' then Err(Argument("input"))
      else match KindOf(s[0])
        case None => Err(Argument("input"))
        case Some(kind) =>
          assert s == [s[0], ':'] + s[2..];
          ParseName(kind, s[2..])
  }

  /** A name ParseName accepts is what Format prints back after the "K:" prefix, and a split one is well formed. */
  lemma {:induction false} ParseNameParts(kind: Kind, r: string)
    requires |r| > 0
    ensures var res := ParseName(kind, r);
      res.Ok? ==> (Format(res.value) == [KindChar(kind), ':'] + r
        && (!IsBareKind(kind) ==> WellFormed(res.value)))
  {
    if kind == Type {
      SplitTypeParts(r);
    } else if !IsBareKind(kind) {
      SplitMemberParts(r);
    }
  }

  /** Round trip: whatever Parse accepts, Format prints back unchanged, and a split cref is well formed. */
  lemma {:induction false} ParseThenFormat(input: Option<string>)
    requires Parse(input).Ok?
    ensures input.Some? && Format(Parse(input).value) == input.value
    ensures !IsBareKind(Parse(input).value.kind) ==> WellFormed(Parse(input).value)
  {
    var s := input.value;
    assert s == [s[0], ':'] + s[2..];
    ParseNameParts(KindOf(s[0]).value, s[2..]);
  }

  /**
   * The crefs Format prints back unambiguously: a namespace or error cref has
   * a non-empty name, and the namespace, type and member parts carry no dot
   * or parenthesis that Parse would split at.
   */
  predicate WellFormed(c: CodeReference)
  {
    match c.kind
    case Namespace => |c.ns| > 0 && c.typeName.None? && c.memberName.None?
    case ErrorString => |c.ns| > 0 && c.typeName.None? && c.memberName.None?
    case Type =>
      c.typeName.Some? && c.memberName.None? && '(' !in c.ns && '.' !in BeforeParen(c.typeName.value)
    case _ =>
      c.typeName.Some? && c.memberName.Some? && '(' !in c.ns
      && '(' !in c.typeName.value && '.' !in c.typeName.value
      && '.' !in BeforeParen(c.memberName.value)
  }

  /** Joining a name without '(' in front of b moves b's search start by the joined length. */
  lemma {:induction false} SearchStartOfJoin(a: string, b: string)
    requires '(' !in a
    ensures SearchStart(a + "." + b) == |a| + |BeforeParen(b)|
  {
    assert '(' !in a + ".";
    IndexOfAppend(a + ".", b, '(');
  }

  /** In a + "." + b, with no '(' in a and no dot before b's first '(', Parse's last dot is the one joining them. */
  lemma {:induction false} LastDotOf(a: string, b: string)
    requires '(' !in a && '.' !in BeforeParen(b)
    ensures SearchStart(a + "." + b) >= |a|
    ensures LastIndexOf(a + "." + b, '.', SearchStart(a + "." + b)) == |a|
  {
    SearchStartOfJoin(a, b);
    LastDotAt(a, b);
  }

  /** Scanning back from the end of b's part before '(', the first dot met is the joining one. */
  lemma {:induction false} LastDotAt(a: string, b: string)
    requires '.' !in BeforeParen(b)
    ensures LastIndexOf(a + "." + b, '.', |a| + |BeforeParen(b)|) == |a|
  {
    var r := a + "." + b;
    var pb := BeforeParen(b);
    BeforeParenIsPrefix(b);
    forall j | |a| < j <= |a| + |pb| ensures r[j] != '.' {
      assert r[j] == b[j - |a| - 1] == pb[j - |a| - 1];
    }
    LastIndexOfIs(r, '.', |a| + |pb|, |a|);
  }

  /** A type cref splits back at the dot Format put between its parts. */
  lemma {:induction false} SplitTypeOfFormat(ns: string, t: string)
    requires '(' !in ns && '.' !in BeforeParen(t)
    ensures SplitType(ns + "." + t) == Ok((ns, t))
  {
    var r := ns + "." + t;
    LastDotOf(ns, t);
    assert r[..|ns|] == ns;
    assert r[|ns| + 1..] == t;
  }

  /** A member cref splits back at the two dots Format put between its parts. */
  lemma {:induction false} SplitMemberOfFormat(ns: string, t: string, m: string)
    requires '(' !in ns && '(' !in t && '.' !in t && '.' !in BeforeParen(m)
    ensures SplitMember(ns + "." + t + "." + m) == Ok((ns, t, m))
  {
    LastDotOf(ns + "." + t, m);
    DotBeforeName(ns, t, m);
    SplitMemberAt(ns, t, m);
  }

  /** Once the two scans stop at the joining dots, the split returns the three parts. */
  lemma {:induction false} SplitMemberAt(ns: string, t: string, m: string)
    requires var r := ns + "." + t + "." + m;
      SearchStart(r) >= |ns| + |t| + 1 && LastIndexOf(r, '.', SearchStart(r)) == |ns| + |t| + 1
      && LastIndexOf(r, '.', |ns| + |t|) == |ns|
    ensures SplitMember(ns + "." + t + "." + m) == Ok((ns, t, m))
  {
    JoinSlices(ns, t, m);
  }

  /** Scanning back from just before the second joining dot, the first dot met is the first joining one. */
  lemma {:induction false} DotBeforeName(ns: string, t: string, m: string)
    requires '.' !in t
    ensures LastIndexOf(ns + "." + t + "." + m, '.', |ns| + |t|) == |ns|
  {
    var r := ns + "." + t + "." + m;
    forall j | |ns| < j <= |ns| + |t| ensures r[j] != '.' {
      assert r[j] == t[j - |ns| - 1];
    }
    LastIndexOfIs(r, '.', |ns| + |t|, |ns|);
  }

  /** The three parts of a dotted join, cut back out. */
  lemma {:induction false} JoinSlices(ns: string, t: string, m: string)
    ensures var r := ns + "." + t + "." + m;
      r[..|ns|] == ns && r[|ns| + 1..|ns| + 1 + |t|] == t && r[|ns| + |t| + 2..] == m
  {
  }

  /** Round trip: every well-formed cref survives Format followed by Parse. */
  lemma {:induction false} FormatThenParse(c: CodeReference)
    requires WellFormed(c)
    ensures Parse(Some(Format(c))) == Ok(c)
  {
    var body := Format(c)[2..];
    FormatPrefix(c);
    ParseOfPrefixed(c.kind, body);
    if c.kind == Type {
      SplitTypeOfFormat(c.ns, c.typeName.value);
    } else if !IsBareKind(c.kind) {
      SplitMemberOfFormat(c.ns, c.typeName.value, c.memberName.value);
    }
  }

  /** Format writes the kind letter, a colon, and then the dotted name. */
  lemma {:induction false} FormatPrefix(c: CodeReference)
    ensures |Format(c)| >= 2 && Format(c) == [KindChar(c.kind), ':'] + Format(c)[2..]
    ensures c.kind == Type ==> Format(c)[2..] == c.ns + "." + Str(c.typeName)
    ensures IsBareKind(c.kind) ==> Format(c)[2..] == c.ns
    ensures !IsBareKind(c.kind) && c.kind != Type
      ==> Format(c)[2..] == c.ns + "." + Str(c.typeName) + "." + Str(c.memberName)
  {
  }

  /** Parse reads the kind letter and the colon, then hands the rest to ParseName. */
  lemma {:induction false} ParseOfPrefixed(kind: Kind, r: string)
    requires |r| > 0
    ensures Parse(Some([KindChar(kind), ':'] + r)) == ParseName(kind, r)
  {
    var s := [KindChar(kind), ':'] + r;
    assert s[0] == KindChar(kind) && s[1] == ':' && s[2..] == r;
  }

  /** A type cref parses exactly when a dot precedes the first '(' of its name. */
  lemma {:induction false} SplitTypeSucceeds(r: string)
    requires |r| > 0
    ensures SplitType(r).Ok? <==> '.' in BeforeParen(r)
  {
    var start := SearchStart(r);
    if start >= 0 {
      BeforeParenIsPrefix(r);
      assert BeforeParen(r) == r[..start + 1];
      LastIndexOfFound(r, '.', start);
    }
  }

  /** Dropping everything from the last dot at or before start removes exactly one dot. */
  lemma {:induction false} DotsBeforeLastDot(r: string, start: int)
    requires 0 <= start < |r| && LastIndexOf(r, '.', start) >= 0
    ensures multiset(r[..start + 1])['.'] == multiset(r[..LastIndexOf(r, '.', start)])['.'] + 1
  {
    var d := LastIndexOf(r, '.', start);
    LastIndexOfLast(r, '.', start);
    var tail := r[d + 1..start + 1];
    assert r[..start + 1] == r[..d] + ['.'] + tail;
    forall k | 0 <= k < |tail| ensures tail[k] != '.' {
      assert tail[k] == r[d + 1 + k];
    }
  }

  /** A member cref parses exactly when at least two dots precede the first '(' of its name. */
  lemma {:induction false} SplitMemberSucceeds(r: string)
    requires |r| > 0
    ensures SplitMember(r).Ok? <==> multiset(BeforeParen(r))['.'] >= 2
  {
    var b := BeforeParen(r);
    BeforeParenIsPrefix(r);
    var start := SearchStart(r);
    if start >= 0 {
      assert b == r[..start + 1];
      LastIndexOfFound(r, '.', start);
      var d := LastIndexOf(r, '.', start);
      if d >= 0 {
        DotsBeforeLastDot(r, start);
        if d > 0 {
          LastIndexOfFound(r, '.', d - 1);
          assert r[..d - 1 + 1] == r[..d];
        }
      }
    }
  }
}
