/**
 * CustomHeadingRenderer: the tag name of a heading and EscapeName, the
 * anchor slug of a heading text. Unicode normalisation and
 * char.IsLetterOrDigit come from tables outside the model and are
 * parameters.
 */
module HeadingRenderer {
  import opened Wrappers
  import opened Strings

  /** HeadingTexts: the tag names of the six heading levels. */
  const HeadingTexts: seq<string> := ["h1", "h2", "h3", "h4", "h5", "h6"]

  /** The tag Write uses: from HeadingTexts for levels 1 to 6, otherwise "<h" and the level. */
  function HeadingText(level: int): (r: string)
    ensures 1 <= level <= 6 ==> r == ['h', ('0' as int + level) as char]
    ensures !(1 <= level <= 6) ==> StartsWith(r, "<h") && r[2..] == IntToString(level)
  {
    if 0 < level && level <= 6 then HeadingTexts[level - 1] else "<h" + IntToString(level)
  }

  /** Different levels 1 to 6 give different tags, none of them starting with '<'. */
  lemma {:induction false} HeadingTextsDistinct(a: int, b: int)
    requires 1 <= a <= 6 && 1 <= b <= 6
    ensures HeadingText(a) == HeadingText(b) <==> a == b
    ensures HeadingText(a)[0] == 'h'
  {
    if HeadingText(a) == HeadingText(b) {
      assert HeadingText(a)[1] == HeadingText(b)[1];
    }
  }

  /**
   * What NormalizeString takes from the Unicode tables: the FormD and FormC
   * normalisations and the test for the NonSpacingMark category.
   */
  datatype UnicodeTables = UnicodeTables(
    formD: string -> string,
    formC: string -> string,
    isNonSpacingMark: char -> bool)

  /** The characters of s that are not non-spacing marks, in order. */
  function DropMarks(s: string, isMark: char -> bool): (r: string)
    ensures |r| <= |s|
    ensures forall c :: c in r <==> c in s && !isMark(c)
  {
    if s == [] then []
    else (if isMark(s[0]) then [] else [s[0]]) + DropMarks(s[1..], isMark)
  }

  /** Dropping marks from a concatenation drops them from each part. */
  lemma {:induction false} DropMarksAppend(a: string, b: string, isMark: char -> bool)
    ensures DropMarks(a + b, isMark) == DropMarks(a, isMark) + DropMarks(b, isMark)
    decreases |a|
  {
    if a == [] {
      assert a + b == b;
    } else {
      assert (a + b)[1..] == a[1..] + b;
      DropMarksAppend(a[1..], b, isMark);
    }
  }

  /** Dropping marks twice drops nothing more. */
  lemma {:induction false} DropMarksIdempotent(s: string, isMark: char -> bool)
    ensures DropMarks(DropMarks(s, isMark), isMark) == DropMarks(s, isMark)
    decreases |s|
  {
    if s != [] {
      DropMarksIdempotent(s[1..], isMark);
      DropMarksAppend(if isMark(s[0]) then [] else [s[0]], DropMarks(s[1..], isMark), isMark);
    }
  }

  /** The value NormalizeString returns for a non-null input. */
  function Normalized(value: string, unicode: UnicodeTables): string
  {
    unicode.formC(DropMarks(unicode.formD(Lower(value)), unicode.isNonSpacingMark))
  }

  /**
   * NormalizeString: null stays null; otherwise the lower-cased value is
   * decomposed, the loop copies every character that is not a non-spacing
   * mark, and the copy is recomposed.
   */
  method NormalizeString(value: Option<string>, unicode: UnicodeTables) returns (r: Option<string>)
    ensures value.None? <==> r.None?
    ensures value.Some? ==> r == Some(Normalized(value.value, unicode))
  {
    if value.None? {
      return None;
    }
    var lowered := Lower(value.value);
    var formD := unicode.formD(lowered);
    var builder := "";
    for i := 0 to |formD|
      invariant builder == DropMarks(formD[..i], unicode.isNonSpacingMark)
    {
      DropMarksAppend(formD[..i], [formD[i]], unicode.isNonSpacingMark);
      assert formD[..i + 1] == formD[..i] + [formD[i]];
      if !unicode.isNonSpacingMark(formD[i]) {
        builder := builder + [formD[i]];
      }
    }
    assert formD[..|formD|] == formD;
    r := Some(unicode.formC(builder));
  }

  /** The text the StringBuilder loop builds: each letter or digit kept, any other character a space. */
  function Spaced(s: string, letterOrDigit: char -> bool): (r: string)
    ensures |r| == |s|
    ensures forall i :: 0 <= i < |s| ==> r[i] == if letterOrDigit(s[i]) then s[i] else ' '
  {
    seq(|s|, i requires 0 <= i < |s| => if letterOrDigit(s[i]) then s[i] else ' ')
  }

  /** The text after a leading run of spaces. */
  function SkipSpaces(s: string): (r: string)
    ensures |r| <= |s| && s[|s| - |r|..] == r
    ensures r == [] || r[0] != ' '
    ensures forall i :: 0 <= i < |s| - |r| ==> s[i] == ' '
  {
    if s == [] || s[0] != ' ' then s
    else
      var rest := SkipSpaces(s[1..]);
      assert s[|s| - |rest|..] == s[1..][|s| - 1 - |rest|..];
      assert forall i :: 1 <= i < |s| - |rest| ==> s[i] == s[1..][i - 1];
      rest
  }

  /** Regex.Replace(s, "[ ]{1,}", "-"): each maximal run of spaces becomes one '-'. */
  function CollapseSpaces(s: string): (r: string)
    ensures ' ' !in r
    ensures s == [] <==> r == []
    ensures s != [] ==> r[0] == if s[0] == ' ' then '-' else s[0]
    decreases |s|
  {
    if s == [] then []
    else if s[0] == ' ' then "-" + CollapseSpaces(SkipSpaces(s[1..]))
    else [s[0]] + CollapseSpaces(s[1..])
  }

  /** No two '-' next to each other. */
  predicate NoDoubleDash(s: string)
  {
    forall i :: 0 <= i < |s| - 1 ==> !(s[i] == '-' && s[i + 1] == '-')
  }

  /** Without '-' in the input, the dashes of the result are single: each run of spaces gave exactly one. */
  lemma {:induction false} CollapseSingleDashes(s: string)
    requires '-' !in s
    ensures NoDoubleDash(CollapseSpaces(s))
    decreases |s|
  {
    if s != [] {
      var r := CollapseSpaces(s);
      var rest := if s[0] == ' ' then SkipSpaces(s[1..]) else s[1..];
      assert '-' !in rest by {
        if s[0] == ' ' {
          assert forall x :: x in rest ==> x in s[1..];
        }
      }
      CollapseSingleDashes(rest);
      var tail := CollapseSpaces(rest);
      assert r == [r[0]] + tail;
      forall i | 0 <= i < |r| - 1 ensures !(r[i] == '-' && r[i + 1] == '-') {
        if i == 0 {
          if tail != [] {
            assert r[1] == tail[0];
            if s[0] == ' ' {
              assert tail[0] == rest[0];
              assert rest[0] in rest;
            } else {
              assert r[0] == s[0] && s[0] in s;
            }
          }
        } else {
          assert r[i] == tail[i - 1] && r[i + 1] == tail[i];
        }
      }
    }
  }

  /** The characters of a string other than c, in order. */
  function Without(s: string, c: char): (r: string)
    ensures c !in r
  {
    if s == [] then [] else (if s[0] == c then [] else [s[0]]) + Without(s[1..], c)
  }

  lemma {:induction false} WithoutSpaceRun(s: string)
    ensures Without(SkipSpaces(s), ' ') == Without(s, ' ')
    decreases |s|
  {
    if s != [] && s[0] == ' ' {
      WithoutSpaceRun(s[1..]);
    }
  }

  /** Without '-' in the input, dropping the dashes of the result gives back the input without its spaces. */
  lemma {:induction false} CollapseKeepsText(s: string)
    requires '-' !in s
    ensures Without(CollapseSpaces(s), '-') == Without(s, ' ')
    decreases |s|
  {
    if s != [] {
      var r := CollapseSpaces(s);
      if s[0] == ' ' {
        var rest := SkipSpaces(s[1..]);
        assert forall x :: x in rest ==> x in s[1..];
        CollapseKeepsText(rest);
        WithoutSpaceRun(s[1..]);
        assert r[1..] == CollapseSpaces(rest);
      } else {
        CollapseKeepsText(s[1..]);
        assert r[1..] == CollapseSpaces(s[1..]);
      }
    }
  }

  /** EscapeName: null and empty names unchanged; otherwise normalised, non-letters spaced out and space runs collapsed. */
  function EscapedName(name: Option<string>, unicode: UnicodeTables, letterOrDigit: char -> bool): Option<string>
  {
    if name.None? || name.value == [] then name
    else Some(CollapseSpaces(Spaced(Normalized(name.value, unicode), letterOrDigit)))
  }

  /** EscapeName, with the loop that replaces every non-letter-or-digit by a space. */
  method EscapeName(name: Option<string>, unicode: UnicodeTables, letterOrDigit: char -> bool) returns (r: Option<string>)
    ensures r == EscapedName(name, unicode, letterOrDigit)
  {
    if name.None? || name.value == [] {
      return name;
    }
    var normalizedOrNull := NormalizeString(name, unicode);
    var normalized := normalizedOrNull.value;
    var builder := "";
    for i := 0 to |normalized|
      invariant builder == Spaced(normalized[..i], letterOrDigit)
    {
      builder := builder + [if letterOrDigit(normalized[i]) then normalized[i] else ' '];
    }
    assert normalized[..|normalized|] == normalized;
    r := Some(CollapseSpaces(builder));
  }

  /**
   * An escaped non-empty name is a slug: no spaces, no two dashes in a row,
   * and every character a letter or digit or a '-' standing for a run of
   * other characters.
   */
  lemma {:induction false} EscapedNameIsSlug(name: string, unicode: UnicodeTables, letterOrDigit: char -> bool)
    requires name != [] && !letterOrDigit('-')
    ensures var r := EscapedName(Some(name), unicode, letterOrDigit).value;
      ' ' !in r && NoDoubleDash(r)
      && Without(r, '-') == Without(Spaced(Normalized(name, unicode), letterOrDigit), ' ')
  {
    var spaced := Spaced(Normalized(name, unicode), letterOrDigit);
    assert '-' !in spaced;
    CollapseSingleDashes(spaced);
    CollapseKeepsText(spaced);
  }
}
