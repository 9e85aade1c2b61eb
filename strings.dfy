/**
 * The subset of System.String and System.Char the modelled code relies on,
 * with the .NET semantics spelled out (index -1 for "not found", the exact
 * Char.IsWhiteSpace set used by Trim, ordinal comparison).
 */
module Strings {

  /**
   * Char.IsWhiteSpace: the Unicode separators (Zs, Zl, Zp) plus
   * U+0009..U+000D, U+0085 and U+00A0.
   */
  predicate IsWhiteSpace(c: char)
  {
    ('\U{9}' <= c <= '\U{D}') || c == ' ' || c == '\U{85}' || c == '\U{A0}'
    || c == '\U{1680}' || ('\U{2000}' <= c <= '\U{200A}') || c == '\U{2028}'
    || c == '\U{2029}' || c == '\U{202F}' || c == '\U{205F}' || c == '\U{3000}'
  }

  predicate AllWhiteSpace(s: string)
  {
    forall i :: 0 <= i < |s| ==> IsWhiteSpace(s[i])
  }

  /** The first index at or after i that holds no whitespace, or |s|. */
  function SkipWhiteSpace(s: string, i: nat): (r: nat)
    requires i <= |s|
    ensures i <= r <= |s|
    ensures r < |s| ==> !IsWhiteSpace(s[r])
    decreases |s| - i
  {
    if i == |s| || !IsWhiteSpace(s[i]) then i else SkipWhiteSpace(s, i + 1)
  }

  /** Everything SkipWhiteSpace passes over is whitespace. */
  lemma {:induction false} SkipWhiteSpaceSkips(s: string, i: nat)
    requires i <= |s|
    ensures forall j :: i <= j < SkipWhiteSpace(s, i) ==> IsWhiteSpace(s[j])
    decreases |s| - i
  {
    if i < |s| && IsWhiteSpace(s[i]) {
      SkipWhiteSpaceSkips(s, i + 1);
    }
  }

  /** The index before which no whitespace remains, scanning back from e and stopping at b. */
  function BackWhiteSpace(s: string, b: nat, e: nat): (r: nat)
    requires b <= e <= |s|
    ensures b <= r <= e
    ensures r > b ==> !IsWhiteSpace(s[r - 1])
    decreases e
  {
    if e == b || !IsWhiteSpace(s[e - 1]) then e else BackWhiteSpace(s, b, e - 1)
  }

  /** Everything BackWhiteSpace passes over is whitespace. */
  lemma {:induction false} BackWhiteSpaceSkips(s: string, b: nat, e: nat)
    requires b <= e <= |s|
    ensures forall j :: BackWhiteSpace(s, b, e) <= j < e ==> IsWhiteSpace(s[j])
    decreases e
  {
    if e > b && IsWhiteSpace(s[e - 1]) {
      BackWhiteSpaceSkips(s, b, e - 1);
    }
  }

  /** String.Trim(): whitespace is dropped at both ends and kept inside. */
  function Trim(s: string): (r: string)
    ensures r == [] || (!IsWhiteSpace(r[0]) && !IsWhiteSpace(r[|r| - 1]))
    ensures r == [] <==> AllWhiteSpace(s)
    ensures |r| <= |s|
  {
    var b := SkipWhiteSpace(s, 0);
    var e := BackWhiteSpace(s, b, |s|);
    SkipWhiteSpaceSkips(s, 0);
    BackWhiteSpaceSkips(s, b, |s|);
    assert e > b ==> s[b..e][0] == s[b];
    s[b..e]
  }

  lemma {:induction false} TrimNoOp(s: string)
    requires s == [] || (!IsWhiteSpace(s[0]) && !IsWhiteSpace(s[|s| - 1]))
    ensures Trim(s) == s
  {
  }

  /** Char.ToLowerInvariant restricted to ASCII letters. */
  function LowerChar(c: char): (r: char)
    ensures !('A' <= r <= 'Z')
    ensures !('A' <= c <= 'Z') ==> r == c
  {
    if 'A' <= c <= 'Z' then (c as int + 32) as char else c
  }

  /** String.ToLowerInvariant restricted to ASCII letters. */
  function Lower(s: string): (r: string)
    ensures |r| == |s|
    ensures forall i :: 0 <= i < |s| ==> r[i] == LowerChar(s[i])
  {
    if s == [] then [] else [LowerChar(s[0])] + Lower(s[1..])
  }

  predicate IsLower(s: string)
  {
    forall i :: 0 <= i < |s| ==> !('A' <= s[i] <= 'Z')
  }

  lemma {:induction false} LowerIdempotent(s: string)
    ensures IsLower(Lower(s))
    ensures Lower(Lower(s)) == Lower(s)
  {
    if s != [] {
      LowerIdempotent(s[1..]);
    }
  }

  /** Lower-casing a text without capitals leaves it as it is. */
  lemma LowerOfLower(s: string)
    requires IsLower(s)
    ensures Lower(s) == s
  {
    assert forall i :: 0 <= i < |s| ==> Lower(s)[i] == s[i];
  }

  /** String.IndexOf(char): the first occurrence, or -1. */
  function IndexOf(s: string, c: char): (r: int)
    ensures -1 <= r < |s|
    ensures r >= 0 ==> s[r] == c
  {
    if s == [] then -1
    else if s[0] == c then 0
    else var k := IndexOf(s[1..], c); (if k < 0 then -1 else k + 1)
  }

  /** IndexOf finds the first occurrence, and -1 means there is none. */
  lemma {:induction false} IndexOfFirst(s: string, c: char)
    ensures IndexOf(s, c) >= 0 ==> c !in s[..IndexOf(s, c)]
    ensures IndexOf(s, c) == -1 <==> c !in s
  {
    if s != [] && s[0] != c {
      IndexOfFirst(s[1..], c);
      var k := IndexOf(s[1..], c);
      if k >= 0 {
        assert s[..k + 1] == [s[0]] + s[1..][..k];
      } else {
        assert s == [s[0]] + s[1..];
      }
    }
  }

  /**
   * String.LastIndexOf(char, startIndex) on a non-empty string whose
   * startIndex is in range: the last occurrence at or before startIndex,
   * or -1.
   */
  function LastIndexOf(s: string, c: char, start: int): (r: int)
    requires 0 <= start < |s|
    ensures -1 <= r <= start
    ensures r >= 0 ==> s[r] == c
    decreases start
  {
    if s[start] == c then start
    else if start == 0 then -1
    else LastIndexOf(s, c, start - 1)
  }

  /** Nothing after LastIndexOf's answer, up to start, holds c. */
  lemma {:induction false} LastIndexOfLast(s: string, c: char, start: int)
    requires 0 <= start < |s|
    ensures forall j :: LastIndexOf(s, c, start) < j <= start ==> s[j] != c
    decreases start
  {
    if s[start] != c && start > 0 {
      LastIndexOfLast(s, c, start - 1);
    }
  }

  lemma {:induction false} IndexOfAppend(a: string, b: string, c: char)
    requires c !in a
    ensures IndexOf(a + b, c) == (if IndexOf(b, c) < 0 then -1 else |a| + IndexOf(b, c))
  {
    if a != [] {
      assert (a + b)[1..] == a[1..] + b;
      IndexOfAppend(a[1..], b, c);
    } else {
      assert a + b == b;
    }
  }

  /** LastIndexOf finds p when p holds c and nothing after it up to start does. */
  lemma {:induction false} LastIndexOfIs(s: string, c: char, start: int, p: int)
    requires 0 <= p <= start < |s|
    requires s[p] == c
    requires forall j :: p < j <= start ==> s[j] != c
    ensures LastIndexOf(s, c, start) == p
    decreases start
  {
    if start != p {
      LastIndexOfIs(s, c, start - 1, p);
    }
  }

  /** LastIndexOf is -1 when nothing up to start holds c. */
  lemma {:induction false} LastIndexOfNone(s: string, c: char, start: int)
    requires 0 <= start < |s|
    requires forall j :: 0 <= j <= start ==> s[j] != c
    ensures LastIndexOf(s, c, start) == -1
    decreases start
  {
    if start > 0 {
      LastIndexOfNone(s, c, start - 1);
    }
  }

  /** LastIndexOf finds an occurrence exactly when one lies at or before start. */
  lemma {:induction false} LastIndexOfFound(s: string, c: char, start: int)
    requires 0 <= start < |s|
    ensures LastIndexOf(s, c, start) >= 0 <==> c in s[..start + 1]
  {
    var p := s[..start + 1];
    var r := LastIndexOf(s, c, start);
    LastIndexOfLast(s, c, start);
    if r >= 0 {
      assert p[r] == c;
    } else {
      forall j | 0 <= j < |p| ensures p[j] != c {
        assert p[j] == s[j];
      }
    }
  }

  /** String.Replace(char, string) for every occurrence. */
  function ReplaceChar(s: string, c: char, rep: string): (r: string)
    ensures c !in s ==> r == s
    ensures c !in rep ==> c !in r
    ensures forall x :: x in r ==> x in s || x in rep
  {
    if s == [] then []
    else (if s[0] == c then rep else [s[0]]) + ReplaceChar(s[1..], c, rep)
  }

  /** string.Join(sep, parts) */
  function Join(sep: string, parts: seq<string>): (r: string)
    ensures |parts| == 0 ==> r == []
    ensures |parts| == 1 ==> r == parts[0]
  {
    if |parts| == 0 then []
    else if |parts| == 1 then parts[0]
    else parts[0] + sep + Join(sep, parts[1..])
  }

  /** Joining one more part adds the separator and that part at the end. */
  lemma {:induction false} JoinSnoc(sep: string, parts: seq<string>, x: string)
    ensures Join(sep, parts + [x]) == if parts == [] then x else Join(sep, parts) + sep + x
    decreases |parts|
  {
    if |parts| >= 2 {
      assert (parts + [x])[1..] == parts[1..] + [x];
      JoinSnoc(sep, parts[1..], x);
    } else if |parts| == 1 {
      assert (parts + [x])[1..] == [x];
    }
  }

  /** String.Split(char): the pieces between the occurrences of c, empty pieces kept. */
  function Split(s: string, c: char): (r: seq<string>)
    ensures |r| >= 1
    ensures forall i :: 0 <= i < |r| ==> c !in r[i]
    ensures Join([c], r) == s
    decreases |s|
  {
    var k := IndexOf(s, c);
    IndexOfFirst(s, c);
    if k < 0 then [s]
    else
      var rest := Split(s[k + 1..], c);
      assert s == s[..k] + [c] + s[k + 1..];
      [s[..k]] + rest
  }

  /** Split has exactly two pieces when c occurs once, and those are the text around it. */
  lemma {:induction false} SplitTwo(s: string, c: char, a: string, b: string)
    ensures Split(s, c) == [a, b] <==> s == a + [c] + b && c !in a && c !in b
  {
    IndexOfFirst(s, c);
    if s == a + [c] + b && c !in a && c !in b {
      IndexOfAppend(a, [c] + b, c);
      assert ([c] + b)[0] == c;
      assert s[..|a|] == a && s[|a| + 1..] == b;
      IndexOfFirst(b, c);
    }
  }

  predicate StartsWith(s: string, prefix: string)
  {
    |prefix| <= |s| && s[..|prefix|] == prefix
  }

  predicate EndsWith(s: string, suffix: string)
  {
    |suffix| <= |s| && s[|s| - |suffix|..] == suffix
  }

  predicate IsDigit(c: char)
  {
    48 <= c as int <= 57
  }

  /** Int32.ToString() of a non-negative value: its decimal digits, most significant first. */
  function NatToString(n: nat): (r: string)
    ensures |r| >= 1 && forall i :: 0 <= i < |r| ==> IsDigit(r[i])
    decreases n
  {
    if n < 10 then [(48 + n) as char]
    else NatToString(n / 10) + [(48 + n % 10) as char]
  }

  /** The value of a string of decimal digits. */
  function DigitsValue(s: string): nat
    requires forall i :: 0 <= i < |s| ==> IsDigit(s[i])
  {
    if s == [] then 0
    else
      assert IsDigit(s[|s| - 1]);
      DigitsValue(s[..|s| - 1]) * 10 + (s[|s| - 1] as int - 48)
  }

  /** Reading the digits back gives the number, so distinct numbers print differently. */
  lemma {:induction false} NatToStringRoundTrip(n: nat)
    ensures DigitsValue(NatToString(n)) == n
    decreases n
  {
    if n >= 10 {
      NatToStringRoundTrip(n / 10);
      var r := NatToString(n);
      assert r[..|r| - 1] == NatToString(n / 10);
    }
  }

  /** Int32.ToString(): a minus sign before the digits of a negative value. */
  function IntToString(i: int): (r: string)
    ensures i >= 0 ==> r == NatToString(i)
    ensures i < 0 ==> r == "-" + NatToString(-i)
  {
    if i < 0 then "-" + NatToString(-i) else NatToString(i)
  }
}
