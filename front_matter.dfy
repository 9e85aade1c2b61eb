/**
 * The hand-written front-matter reader of the importers (ParseMeta and its
 * helpers IndexOfNoWhiteSpace and IndexAfterAny). A markdown text may open
 * with a block such as
 *
 *   ---
 *   title: Getting started
 *   redirect_to: intro
 *   ---
 *
 * whose "key: value" lines fill the page's metadata; the block is then cut
 * from the text. Every place where the code throws is an Err here.
 */
module FrontMatter {
  import opened Wrappers
  import opened Strings

  /** The characters IndexOfAny looks for to end a line. */
  const LineBreaks: seq<char> := ['\r', '\n']

  predicate NotWhiteSpace(c: char)
  {
    !IsWhiteSpace(c)
  }

  predicate IsLineBreak(c: char)
  {
    c in LineBreaks
  }

  /** The test of IndexAfterAny: the character is none of anyChar. */
  function NotIn(anyChar: seq<char>): char -> bool
  {
    c => c !in anyChar
  }

  /** The least index at or after start whose character satisfies p, or -1. */
  function FirstFrom(s: string, start: nat, p: char -> bool): (r: int)
    ensures r == -1 || (start <= r < |s| && p(s[r]))
    ensures forall j :: start <= j < |s| && (r == -1 || j < r) ==> !p(s[j])
    decreases |s| - start
  {
    if start >= |s| then -1
    else if p(s[start]) then start
    else FirstFrom(s, start + 1, p)
  }

  /** Scanning on from an index that p rejects finds the same index. */
  lemma {:induction false} FirstFromStep(s: string, i: nat, p: char -> bool)
    requires i < |s| && !p(s[i])
    ensures FirstFrom(s, i, p) == FirstFrom(s, i + 1, p)
  {
  }

  /** IndexOfNoWhiteSpace: the first non-whitespace index from startIndex on, or -1. */
  method IndexOfNoWhiteSpace(input: Option<string>, startIndex: int) returns (r: Result<int, Exception>)
    ensures input.None? ==> r == Err(ArgumentNull("input"))
    ensures input.Some? && startIndex < 0 ==> r == Err(IndexOutOfRange)
    ensures input.Some? && startIndex >= 0 ==> r == Ok(FirstFrom(input.value, startIndex, NotWhiteSpace))
  {
    if input.None? {
      return Err(ArgumentNull("input"));
    }
    var s := input.value;
    var i := startIndex;
    while i < |s|
      invariant startIndex <= i
      invariant startIndex < 0 ==> i == startIndex
      invariant startIndex >= 0 ==> FirstFrom(s, startIndex, NotWhiteSpace) == FirstFrom(s, i, NotWhiteSpace)
      decreases |s| - i
    {
      if i < 0 {
        return Err(IndexOutOfRange);
      }
      if !IsWhiteSpace(s[i]) {
        return Ok(i);
      }
      FirstFromStep(s, i, NotWhiteSpace);
      i := i + 1;
    }
    return Ok(-1);
  }

  /** IndexAfterAny: the first index from startIndex on whose character is none of anyChar, or -1. */
  method IndexAfterAny(input: Option<string>, anyChar: Option<seq<char>>, startIndex: int) returns (r: Result<int, Exception>)
    ensures input.None? ==> r == Err(ArgumentNull("input"))
    ensures input.Some? && anyChar.None? ==> r == Err(ArgumentNull("anyChar"))
    ensures input.Some? && anyChar.Some? && startIndex < 0 ==> r == Err(IndexOutOfRange)
    ensures input.Some? && anyChar.Some? && startIndex >= 0 ==>
      r == Ok(FirstFrom(input.value, startIndex, NotIn(anyChar.value)))
  {
    if input.None? {
      return Err(ArgumentNull("input"));
    }
    if anyChar.None? {
      return Err(ArgumentNull("anyChar"));
    }
    var s := input.value;
    var chars := anyChar.value;
    var i := startIndex;
    while i < |s|
      invariant startIndex <= i
      invariant startIndex < 0 ==> i == startIndex
      invariant startIndex >= 0 ==> FirstFrom(s, startIndex, NotIn(chars)) == FirstFrom(s, i, NotIn(chars))
      decreases |s| - i
    {
      if i < 0 {
        return Err(IndexOutOfRange);
      }
      if s[i] !in chars {
        return Ok(i);
      }
      FirstFromStep(s, i, NotIn(chars));
      i := i + 1;
    }
    return Ok(-1);
  }

  /** A closing line: three or more characters, all '-'. */
  predicate IsMarkerLine(line: string)
  {
    |line| >= 3 && forall i :: 0 <= i < |line| ==> line[i] == '-'
  }

  /** What the line loop leaves behind: the data lines and where the text resumes (-1 when no closing line ended the block). */
  datatype Scan = Scan(dataLines: seq<string>, endOfEndMarker: int)

  /**
   * Where the text resumes after a closing line whose following text starts
   * at next: past further '-' and whitespace; the end of the text when
   * nothing follows. A rest made only of '-' hands -1 to IndexOfNoWhiteSpace,
   * which throws.
   */
  function EndOfEndMarker(md: string, next: int): (r: Result<int, Exception>)
    ensures next < 0 ==> r == Ok(|md|)
    ensures r.Ok? && next >= 0 ==>
      (r.value == -1 || (next <= r.value < |md| && !IsWhiteSpace(md[r.value])))
  {
    if next < 0 then Ok(|md|)
    else
      var afterDashes := FirstFrom(md, next, NotIn("-"));
      if afterDashes < 0 then Err(IndexOutOfRange)
      else
        Ok(FirstFrom(md, afterDashes, NotWhiteSpace))
  }

  /** The data lines a scan collects: trimmed, non-empty and within one line. */
  predicate DataLinesWellFormed(lines: seq<string>)
  {
    forall i :: 0 <= i < |lines| ==>
      (lines[i] != [] && !IsWhiteSpace(lines[i][0]) && !IsWhiteSpace(lines[i][|lines[i]| - 1])
       && forall j :: 0 <= j < |lines[i]| ==> !IsLineBreak(lines[i][j]))
  }

  /** Trim of a slice without line breaks has none either. */
  lemma {:induction false} TrimKeepsLine(s: string)
    requires forall j :: 0 <= j < |s| ==> !IsLineBreak(s[j])
    ensures var t := Trim(s); forall j :: 0 <= j < |t| ==> !IsLineBreak(t[j])
  {
    var b := SkipWhiteSpace(s, 0);
    var e := BackWhiteSpace(s, b, |s|);
    assert Trim(s) == s[b..e];
    assert forall j :: 0 <= j < e - b ==> s[b..e][j] == s[b + j];
  }

  /** A trimmed line without line breaks may join the data lines. */
  lemma {:induction false} AppendDataLine(lines: seq<string>, text: string)
    requires DataLinesWellFormed(lines) && Trim(text) != []
    requires forall j :: 0 <= j < |text| ==> !IsLineBreak(text[j])
    ensures DataLinesWellFormed(lines + [Trim(text)])
  {
    TrimKeepsLine(text);
    var more := lines + [Trim(text)];
    assert forall i :: 0 <= i < |lines| ==> more[i] == lines[i];
  }

  /**
   * The while loop of ParseMeta from the data line starting at start, with
   * the lines collected so far: each line up to the next line break is
   * trimmed; a closing line ends the block, a blank one is skipped, any
   * other is collected; a last line without a line break ends the loop
   * with the block unclosed.
   */
  function ScanLines(md: string, start: int, lines: seq<string>): (r: Result<Scan, Exception>)
    requires start < 0 || (start < |md| && !IsWhiteSpace(md[start]))
    ensures r.Ok? ==> |r.value.dataLines| >= |lines| && r.value.dataLines[..|lines|] == lines
    ensures r.Ok? && DataLinesWellFormed(lines) ==> DataLinesWellFormed(r.value.dataLines)
    ensures r.Ok? ==>
      (r.value.endOfEndMarker == -1 || r.value.endOfEndMarker == |md|
       || (0 < r.value.endOfEndMarker < |md| && !IsWhiteSpace(md[r.value.endOfEndMarker])))
    decreases if start < 0 then 0 else |md| + 1 - start
  {
    if start < 0 then Ok(Scan(lines, -1))
    else
      var end := FirstFrom(md, start, IsLineBreak);
      if end < 0 then Ok(Scan(lines, -1))
      else
        var line := Trim(md[start..end]);
        var next := FirstFrom(md, end, NotWhiteSpace);
        assert next == -1 || next > end by {
          assert IsWhiteSpace(md[end]);
        }
        if IsMarkerLine(line) then
          match EndOfEndMarker(md, next)
          case Err(e) => Err(e)
          case Ok(k) => Ok(Scan(lines, k))
        else
          var more := if |line| > 0 then lines + [line] else lines;
          assert DataLinesWellFormed(lines) ==> DataLinesWellFormed(more) by {
            if DataLinesWellFormed(lines) && |line| > 0 {
              AppendDataLine(lines, md[start..end]);
            }
          }
          var r := ScanLines(md, next, more);
          assert r.Ok? ==> r.value.dataLines[..|lines|] == r.value.dataLines[..|more|][..|lines|];
          r
  }

  /** The block-detection part of ParseMeta and its loop: the scan, or what the code throws. */
  function FrontMatterScan(md: string): (r: Result<Scan, Exception>)
    ensures r.Ok? ==> DataLinesWellFormed(r.value.dataLines)
  {
    var pos := FirstFrom(md, 0, NotWhiteSpace);
    if pos < 0 then Ok(Scan([], -1))
    else if pos + 3 > |md| then Err(ArgumentOutOfRange("length"))
    else if md[pos..pos + 3] != "---" then Ok(Scan([], -1))
    else
      var endOfStartMarker := FirstFrom(md, pos, NotIn("-"));
      if endOfStartMarker < 0 then Err(IndexOutOfRange)
      else if !IsLineBreak(md[endOfStartMarker]) then Ok(Scan([], -1))
      else ScanLines(md, FirstFrom(md, endOfStartMarker, NotWhiteSpace), [])
  }

  /** The metadata ParseMeta fills; the other DocMeta fields are set by the importer. */
  datatype DocMeta = DocMeta(title: Option<string>, redirectUrl: Option<string>, redirectPage: Option<string>)

  const EmptyMeta: DocMeta := DocMeta(None, None, None)

  /** Split(':', 2) with both halves trimmed: a line without ':' has no second half, and reading it throws. */
  function KeyValue(line: string): (r: Result<(string, string), Exception>)
    ensures r.Err? <==> ':' !in line
    ensures r.Err? ==> r.error == IndexOutOfRange
    ensures r.Ok? ==>
      (exists k :: 0 <= k < |line| && line[k] == ':' && ':' !in line[..k]
         && r.value == (Trim(line[..k]), Trim(line[k + 1..])))
  {
    var k := IndexOf(line, ':');
    IndexOfFirst(line, ':');
    if k < 0 then Err(IndexOutOfRange) else Ok((Trim(line[..k]), Trim(line[k + 1..])))
  }

  /** Whether a redirect value is an absolute http(s) address. */
  predicate IsUrl(value: string)
  {
    StartsWith(value, "http://") || StartsWith(value, "https://")
  }

  /** One data line applied to the metadata: "title" and "redirect_to" are read, other keys ignored. */
  function ApplyLine(meta: DocMeta, line: string): (r: Result<DocMeta, Exception>)
    ensures r.Err? <==> ':' !in line
    ensures r.Ok? ==> var (key, value) := KeyValue(line).value;
      (key == "title" ==> r.value == meta.(title := Some(value)))
      && (key == "redirect_to" && IsUrl(value) ==> r.value == meta.(redirectUrl := Some(value)))
      && (key == "redirect_to" && !IsUrl(value) ==> r.value == meta.(redirectPage := Some(value)))
      && (key != "title" && key != "redirect_to" ==> r.value == meta)
  {
    match KeyValue(line)
    case Err(e) => Err(e)
    case Ok((key, value)) =>
      if key == "title" then Ok(meta.(title := Some(value)))
      else if key == "redirect_to" then
        if IsUrl(value) then Ok(meta.(redirectUrl := Some(value))) else Ok(meta.(redirectPage := Some(value)))
      else Ok(meta)
  }

  /** The foreach over the data lines: each applied in order, the first line without ':' throwing. */
  function ApplyLines(meta: DocMeta, lines: seq<string>): (r: Result<DocMeta, Exception>)
    decreases |lines|
  {
    if lines == [] then Ok(meta)
    else
      match ApplyLine(meta, lines[0])
      case Err(e) => Err(e)
      case Ok(m) => ApplyLines(m, lines[1..])
  }

  /** The foreach throws exactly when some data line lacks a ':'. */
  lemma {:induction false} ApplyLinesFails(meta: DocMeta, lines: seq<string>)
    ensures ApplyLines(meta, lines).Err? <==> exists i :: 0 <= i < |lines| && ':' !in lines[i]
    ensures ApplyLines(meta, lines).Err? ==> ApplyLines(meta, lines).error == IndexOutOfRange
    decreases |lines|
  {
    if lines != [] {
      match ApplyLine(meta, lines[0])
      case Err(e) =>
      case Ok(m) =>
        assert ':' in lines[0];
        ApplyLinesFails(m, lines[1..]);
        if exists i :: 0 <= i < |lines| && ':' !in lines[i] {
          var i :| 0 <= i < |lines| && ':' !in lines[i];
          assert i > 0;
          assert ':' !in lines[1..][i - 1];
        }
        if exists i :: 0 <= i < |lines[1..]| && ':' !in lines[1..][i] {
          var i :| 0 <= i < |lines[1..]| && ':' !in lines[1..][i];
          assert ':' !in lines[i + 1];
        }
    }
  }

  /** Applying a line after others: the fold of a longer list continues from the shorter one. */
  lemma {:induction false} ApplyLinesSnoc(meta: DocMeta, lines: seq<string>, line: string)
    ensures ApplyLines(meta, lines + [line]) ==
      match ApplyLines(meta, lines)
      case Err(e) => Err(e)
      case Ok(m) => ApplyLine(m, line)
    decreases |lines|
  {
    if lines == [] {
      assert [line][1..] == [];
    } else {
      assert (lines + [line])[0] == lines[0];
      assert (lines + [line])[1..] == lines[1..] + [line];
      match ApplyLine(meta, lines[0])
      case Err(e) =>
      case Ok(m) => ApplyLinesSnoc(m, lines[1..], line);
    }
  }

  /** A later "title" line wins over an earlier one. */
  lemma {:induction false} LastTitleWins(meta: DocMeta, lines: seq<string>, value: string)
    requires ApplyLines(meta, lines).Ok?
    requires AllWhiteSpace(value) || (!IsWhiteSpace(value[0]) && !IsWhiteSpace(value[|value| - 1]))
    requires ':' !in value
    ensures ApplyLines(meta, lines + ["title:" + value]).Ok?
    ensures ApplyLines(meta, lines + ["title:" + value]).value.title == Some(Trim(value))
  {
    ApplyLinesSnoc(meta, lines, "title:" + value);
    TitleLine(value);
  }

  /** A "title:" line splits into the key "title" and the trimmed value. */
  lemma {:induction false} TitleLine(value: string)
    requires ':' !in value
    ensures KeyValue("title:" + value) == Ok(("title", Trim(value)))
  {
    var line := "title:" + value;
    assert line[..5] == "title" && line[6..] == value;
    assert ':' !in line[..5];
    assert line[5] == ':';
    assert KeyValue(line).value == (Trim("title"), Trim(value));
    TrimNoOp("title");
  }

  /** The text ParseMeta leaves: from endOfEndMarker on when it is positive, untouched otherwise. */
  function TrimmedMarkdown(md: string, endOfEndMarker: int): (r: string)
    ensures endOfEndMarker <= 0 ==> r == md
    ensures endOfEndMarker >= |md| ==> r == ""
    ensures 0 < endOfEndMarker < |md| ==> md == md[..endOfEndMarker] + r
  {
    if endOfEndMarker > 0 then (if endOfEndMarker < |md| then md[endOfEndMarker..] else "") else md
  }

  /** ParseMeta: the metadata read from the block and the text without it, or what the code throws. */
  function ParsedMeta(md: string): Result<(DocMeta, string), Exception>
  {
    match FrontMatterScan(md)
    case Err(e) => Err(e)
    case Ok(scan) =>
      match ApplyLines(EmptyMeta, scan.dataLines)
      case Err(e) => Err(e)
      case Ok(meta) => Ok((meta, TrimmedMarkdown(md, scan.endOfEndMarker)))
  }

  /** The end of a closing line, as the method computes it with the two helpers. */
  method CloseBlock(md: string, next: int) returns (r: Result<int, Exception>)
    ensures r == EndOfEndMarker(md, next)
  {
    if next < 0 {
      return Ok(|md|);
    }
    var afterDashes := IndexAfterAny(Some(md), Some("-"), next);
    r := IndexOfNoWhiteSpace(Some(md), afterDashes.value);
  }

  /** The while loop of ParseMeta. */
  method ScanDataLines(md: string, startOfDataLine: int) returns (r: Result<Scan, Exception>)
    requires startOfDataLine < 0 || (startOfDataLine < |md| && !IsWhiteSpace(md[startOfDataLine]))
    ensures r == ScanLines(md, startOfDataLine, [])
  {
    var dataLines: seq<string> := [];
    var start := startOfDataLine;
    while start >= 0
      invariant start < 0 || (start < |md| && !IsWhiteSpace(md[start]))
      invariant ScanLines(md, startOfDataLine, []) == ScanLines(md, start, dataLines)
      decreases if start < 0 then 0 else |md| + 1 - start
    {
      var endOfDataLine := FirstFrom(md, start, IsLineBreak);
      if endOfDataLine < 0 {
        break;
      }
      var line := Trim(md[start..endOfDataLine]);
      var next := IndexOfNoWhiteSpace(Some(md), endOfDataLine);
      start := next.value;
      assert start == -1 || start > endOfDataLine by {
        assert IsWhiteSpace(md[endOfDataLine]);
      }
      if IsMarkerLine(line) {
        var endOfEndMarker := CloseBlock(md, start);
        if endOfEndMarker.Err? {
          return Err(endOfEndMarker.error);
        }
        return Ok(Scan(dataLines, endOfEndMarker.value));
      }
      if |line| > 0 {
        dataLines := dataLines + [line];
      }
    }
    return Ok(Scan(dataLines, -1));
  }

  /** The foreach of ParseMeta over the data lines. */
  method ReadMeta(dataLines: seq<string>) returns (r: Result<DocMeta, Exception>)
    ensures r == ApplyLines(EmptyMeta, dataLines)
  {
    var meta := EmptyMeta;
    for i := 0 to |dataLines|
      invariant ApplyLines(EmptyMeta, dataLines) == ApplyLines(meta, dataLines[i..])
    {
      var lineSplit := KeyValue(dataLines[i]);
      if lineSplit.Err? {
        return Err(lineSplit.error);
      }
      var (key, value) := lineSplit.value;
      if key == "title" {
        meta := meta.(title := Some(value));
      } else if key == "redirect_to" {
        if IsUrl(value) {
          meta := meta.(redirectUrl := Some(value));
        } else {
          meta := meta.(redirectPage := Some(value));
        }
      }
      assert dataLines[i..][1..] == dataLines[i + 1..];
    }
    return Ok(meta);
  }

  /** ParseMeta: reads the front matter and returns the metadata with the text the ref argument is left holding. */
  method ParseMeta(markdown: string) returns (r: Result<(DocMeta, string), Exception>)
    ensures r == ParsedMeta(markdown)
  {
    var scan := Scan([], -1);
    var positionOfMarker := IndexOfNoWhiteSpace(Some(markdown), 0);
    var pos := positionOfMarker.value;
    if pos >= 0 {
      if pos + 3 > |markdown| {
        return Err(ArgumentOutOfRange("length"));
      }
      if markdown[pos..pos + 3] == "---" {
        var endOfStartMarker := IndexAfterAny(Some(markdown), Some("-"), pos);
        var e := endOfStartMarker.value;
        if e < 0 {
          return Err(IndexOutOfRange);
        }
        if IsLineBreak(markdown[e]) {
          var startOfDataLine := IndexOfNoWhiteSpace(Some(markdown), e);
          var scanned := ScanDataLines(markdown, startOfDataLine.value);
          if scanned.Err? {
            return Err(scanned.error);
          }
          scan := scanned.value;
        }
      }
    }
    var meta := ReadMeta(scan.dataLines);
    if meta.Err? {
      return Err(meta.error);
    }
    r := Ok((meta.value, TrimmedMarkdown(markdown, scan.endOfEndMarker)));
  }

  /** A text whose first non-whitespace characters are not "---" keeps its text and gets no metadata. */
  lemma {:induction false} NoMarkerNoMeta(md: string)
    requires var pos := FirstFrom(md, 0, NotWhiteSpace);
      pos < 0 || (pos + 3 <= |md| && md[pos..pos + 3] != "---")
    ensures ParsedMeta(md) == Ok((EmptyMeta, md))
  {
  }

  /** A block without a closing line still yields its metadata, and the text is left as it was. */
  lemma {:induction false} UnclosedBlockKeepsText(md: string)
    requires FrontMatterScan(md).Ok? && FrontMatterScan(md).value.endOfEndMarker == -1
    requires ApplyLines(EmptyMeta, FrontMatterScan(md).value.dataLines).Ok?
    ensures ParsedMeta(md).Ok?
    ensures ParsedMeta(md).value == (ApplyLines(EmptyMeta, FrontMatterScan(md).value.dataLines).value, md)
  {
  }

  /** The scan's end index is -1, the end of the text, or a non-whitespace index after the opening marker. */
  lemma {:induction false} ScanEndShape(md: string)
    requires FrontMatterScan(md).Ok?
    ensures var k := FrontMatterScan(md).value.endOfEndMarker;
      k == -1 || k == |md| || (0 < k < |md| && !IsWhiteSpace(md[k]))
  {
  }

  /**
   * After a parse the text is what followed the block: a suffix of the input
   * that is empty, the whole input, or starts with a non-whitespace character.
   */
  lemma {:induction false} ParsedTextIsSuffix(md: string)
    requires ParsedMeta(md).Ok?
    ensures var text := ParsedMeta(md).value.1;
      |text| <= |md| && md[|md| - |text|..] == text
      && (text == [] || text == md || !IsWhiteSpace(text[0]))
  {
    ScanEndShape(md);
  }

  /** A text whose first non-whitespace character is among its last two throws on the three-character marker test. */
  lemma {:induction false} ShortTextThrows(md: string)
    requires var pos := FirstFrom(md, 0, NotWhiteSpace); pos >= 0 && pos + 3 > |md|
    ensures ParsedMeta(md) == Err(ArgumentOutOfRange("length"))
  {
  }

  /** A text that is whitespace and then only '-' (such as "---") has no character after the marker to test, and throws. */
  lemma {:induction false} BareMarkerThrows(md: string)
    requires var pos := FirstFrom(md, 0, NotWhiteSpace);
      pos >= 0 && pos + 3 <= |md| && forall i :: pos <= i < |md| ==> md[i] == '-'
    ensures ParsedMeta(md) == Err(IndexOutOfRange)
  {
    var pos := FirstFrom(md, 0, NotWhiteSpace);
    assert md[pos..pos + 3] == "---";
    assert FirstFrom(md, pos, NotIn("-")) == -1;
  }
}
