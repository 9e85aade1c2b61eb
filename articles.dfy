/**
 * Article import of NewDocsImportService: the front matter applied to the
 * article, the old-style preamble trimmed, the introduction split off, the
 * level-2 headings listed as paragraphs and the defaults filled in.
 * Markdig's parsing and rendering are outside the model: a document is a
 * sequence of blocks, a heading carries the texts the importer reads from
 * its inlines, and rendering is a parameter.
 */
module Articles {
  import opened Wrappers
  import opened Strings
  import Paths
  import StorageKeys
  import HeadingRenderer
  import FrontMatter

  /** The blocks of a parsed markdown document that the importer tells apart. */
  datatype Block =
    | Paragraph
    | Heading(level: int, firstLiteral: Option<string>, firstChild: Option<string>)
    | FrontMatterBlock(lines: seq<string>)
    | OtherBlock

  /** DocCategory: a name and the escaped name used in urls. */
  datatype DocCategory = DocCategory(name: Option<string>, uri: Option<string>)

  /** The default category of an article without one. */
  const DocsCategory: DocCategory := DocCategory(Some("Docs"), Some("docs"))

  /** DocParagraph: a level-2 heading's text and its anchor. */
  datatype DocParagraph = DocParagraph(name: string, uri: string)

  /** The article fields the front matter can set. */
  datatype ArticleMeta = ArticleMeta(title: Option<string>, redirectUrl: Option<string>, redirectPage: Option<string>,
                                     category: Option<DocCategory>)

  const NoMeta: ArticleMeta := ArticleMeta(None, None, None, None)

  /** What ImportArticle fills in; Content, LastModification and EditUrl come from rendering, the clock and the repository. */
  datatype ArticleData = ArticleData(meta: ArticleMeta, introduction: Option<string>, uri: string, paragraphs: seq<DocParagraph>)

  /** DocArticle: the record the importer fills field by field. */
  class DocArticle {
    var title: Option<string>
    var redirectUrl: Option<string>
    var redirectPage: Option<string>
    var category: Option<DocCategory>
    var introduction: Option<string>
    var uri: Option<string>
    var paragraphs: seq<DocParagraph>

    constructor()
      ensures Meta() == NoMeta && introduction == None && uri == None && paragraphs == []
    {
      title := None;
      redirectUrl := None;
      redirectPage := None;
      category := None;
      introduction := None;
      uri := None;
      paragraphs := [];
    }

    function Meta(): ArticleMeta
      reads this
    {
      ArticleMeta(title, redirectUrl, redirectPage, category)
    }
  }

  /** The switch on a key: title, redirect_to (a url or a page) and category; other keys leave the article alone. */
  function ApplyEntry(meta: ArticleMeta, key: string, value: string): (r: ArticleMeta)
    ensures key == "title" ==> r == meta.(title := Some(value))
    ensures key == "redirect_to" && FrontMatter.IsUrl(value) ==> r == meta.(redirectUrl := Some(value))
    ensures key == "redirect_to" && !FrontMatter.IsUrl(value) ==> r == meta.(redirectPage := Some(value))
    ensures key == "category" ==> r == meta.(category := Some(DocCategory(Some(value), StorageKeys.BranchNameToPathString(Some(value)))))
    ensures key != "title" && key != "redirect_to" && key != "category" ==> r == meta
  {
    if key == "title" then meta.(title := Some(value))
    else if key == "redirect_to" then
      if FrontMatter.IsUrl(value) then meta.(redirectUrl := Some(value)) else meta.(redirectPage := Some(value))
    else if key == "category" then meta.(category := Some(DocCategory(Some(value), StorageKeys.BranchNameToPathString(Some(value)))))
    else meta
  }

  /** The dictionary and the article fields while the front matter is read. */
  datatype MetaState = MetaState(entries: map<string, string>, meta: ArticleMeta)

  /** One front-matter line: empty lines skipped, split at the first ':' (none throws), key and value trimmed. */
  function MetaStep(state: MetaState, line: string): (r: Result<MetaState, Exception>)
    ensures r.Err? <==> line != [] && ':' !in line
    ensures line == [] ==> r == Ok(state)
  {
    if line == [] then Ok(state)
    else
      match FrontMatter.KeyValue(line)
      case Err(e) => Err(e)
      case Ok((key, value)) => Ok(MetaState(state.entries[key := value], ApplyEntry(state.meta, key, value)))
  }

  /** The front matter applied line by line, in order. */
  function ApplyMetaLines(state: MetaState, lines: seq<string>): Result<MetaState, Exception>
    decreases |lines|
  {
    if lines == [] then Ok(state)
    else
      match MetaStep(state, lines[0])
      case Err(e) => Err(e)
      case Ok(next) => ApplyMetaLines(next, lines[1..])
  }

  /** The front matter fails exactly when one of its non-empty lines has no ':'. */
  lemma {:induction false} ApplyMetaLinesFails(state: MetaState, lines: seq<string>)
    ensures ApplyMetaLines(state, lines).Err? <==> exists i :: 0 <= i < |lines| && lines[i] != [] && ':' !in lines[i]
    ensures ApplyMetaLines(state, lines).Err? ==> ApplyMetaLines(state, lines).error == IndexOutOfRange
    decreases |lines|
  {
    if lines != [] {
      if MetaStep(state, lines[0]).Ok? {
        ApplyMetaLinesFails(MetaStep(state, lines[0]).value, lines[1..]);
        if exists i :: 0 <= i < |lines| && lines[i] != [] && ':' !in lines[i] {
          var i :| 0 <= i < |lines| && lines[i] != [] && ':' !in lines[i];
          assert i > 0;
          assert lines[1..][i - 1] == lines[i];
        }
        if exists i :: 0 <= i < |lines[1..]| && lines[1..][i] != [] && ':' !in lines[1..][i] {
          var i :| 0 <= i < |lines[1..]| && lines[1..][i] != [] && ':' !in lines[1..][i];
          assert lines[i + 1] == lines[1..][i];
        }
      }
    }
  }

  /** Reading one more line is one more step after the others. */
  lemma {:induction false} ApplyMetaLinesSnoc(state: MetaState, lines: seq<string>, line: string)
    ensures ApplyMetaLines(state, lines + [line])
      == (match ApplyMetaLines(state, lines)
          case Err(e) => Err(e)
          case Ok(s) => MetaStep(s, line))
    decreases |lines|
  {
    if lines == [] {
      assert [line][1..] == [];
    } else {
      assert (lines + [line])[0] == lines[0];
      assert (lines + [line])[1..] == lines[1..] + [line];
      if MetaStep(state, lines[0]).Ok? {
        ApplyMetaLinesSnoc(MetaStep(state, lines[0]).value, lines[1..], line);
      }
    }
  }

  /** The returned dictionary is last-wins: a final "key: value" line decides the key's entry, and a title line the title. */
  lemma {:induction false} LastEntryWins(state: MetaState, lines: seq<string>, key: string, value: string)
    requires ApplyMetaLines(state, lines).Ok?
    requires key == Trim(key) && value == Trim(value) && ':' !in key
    ensures var s := ApplyMetaLines(state, lines + [key + ":" + value]);
      s.Ok? && s.value.entries == ApplyMetaLines(state, lines).value.entries[key := value]
      && (key == "title" ==> s.value.meta.title == Some(value))
  {
    ApplyMetaLinesSnoc(state, lines, key + ":" + value);
    var line := key + ":" + value;
    assert line[|key|] == ':';
    IndexOfAppend(key, ":" + value, ':');
    assert line[..|key|] == key && line[|key| + 1..] == value;
  }

  /** Empty lines change nothing. */
  lemma {:induction false} EmptyLineSkipped(state: MetaState, lines: seq<string>)
    ensures ApplyMetaLines(state, lines + [""]) == ApplyMetaLines(state, lines)
  {
    ApplyMetaLinesSnoc(state, lines, "");
  }

  /** ApplyMetadata: the dictionary of the front matter, with the article's fields set as the lines are read. */
  method ApplyMetadata(lines: seq<string>, article: DocArticle) returns (r: Result<map<string, string>, Exception>)
    modifies article`title, article`redirectUrl, article`redirectPage, article`category
    ensures var s := ApplyMetaLines(MetaState(map[], old(article.Meta())), lines);
      (r.Err? <==> s.Err?)
      && (r.Err? ==> r.error == s.error)
      && (r.Ok? ==> r.value == s.value.entries && article.Meta() == s.value.meta)
  {
    var result: map<string, string> := map[];
    ghost var start := MetaState(map[], article.Meta());
    for i := 0 to |lines|
      invariant ApplyMetaLines(start, lines) == ApplyMetaLines(MetaState(result, article.Meta()), lines[i..])
    {
      var line := lines[i];
      assert lines[i..][0] == line && lines[i..][1..] == lines[i + 1..];
      if line == [] {
        continue;
      }
      var k := IndexOf(line, ':');
      if k < 0 {
        return Err(IndexOutOfRange);
      }
      var key := Trim(line[..k]);
      var value := Trim(line[k + 1..]);
      result := result[key := value];
      if key == "title" {
        article.title := Some(value);
      } else if key == "redirect_to" {
        if StartsWith(value, "http://") || StartsWith(value, "https://") {
          article.redirectUrl := Some(value);
        } else {
          article.redirectPage := Some(value);
        }
      } else if key == "category" {
        article.category := Some(DocCategory(Some(value), StorageKeys.BranchNameToPathString(Some(value))));
      }
    }
    assert lines[|lines|..] == [];
    r := Ok(result);
  }

  /** The heading the old preamble ends with. */
  predicate IsIntroductionHeading(b: Block)
  {
    b.Heading? && b.firstLiteral == Some("Introduction")
  }

  /** The index of the first Introduction heading, or -1. */
  function IntroductionIndex(doc: seq<Block>): (r: int)
    ensures -1 <= r < |doc|
    ensures r >= 0 ==> IsIntroductionHeading(doc[r])
    ensures forall i :: 0 <= i < |doc| && (r < 0 || i < r) ==> !IsIntroductionHeading(doc[i])
  {
    if doc == [] then -1
    else if IsIntroductionHeading(doc[0]) then 0
    else
      var k := IntroductionIndex(doc[1..]);
      if k < 0 then -1 else k + 1
  }

  /** Whether the preamble is removed, and through which block. */
  predicate TrimsPreamble(doc: seq<Block>)
  {
    |doc| > 1 && !doc[0].Paragraph?
    && var k := IntroductionIndex(doc);
       k >= 0 && |doc| > k + 1 && doc[k + 1].Paragraph?
  }

  /**
   * TrimArticlePreamble on the blocks: with more than one block and no
   * leading paragraph, everything through the first Introduction heading
   * goes when a paragraph follows it; otherwise nothing changes.
   */
  function TrimmedPreamble(doc: seq<Block>): (r: seq<Block>)
    ensures !TrimsPreamble(doc) ==> r == doc
    ensures TrimsPreamble(doc) ==>
      (var k := IntroductionIndex(doc);
       r == doc[k + 1..] && r != [] && r[0].Paragraph?)
  {
    if TrimsPreamble(doc) then doc[IntroductionIndex(doc) + 1..] else doc
  }

  /** Trimming twice trims no more: the trimmed document starts with a paragraph. */
  lemma {:induction false} TrimIdempotent(doc: seq<Block>)
    ensures TrimmedPreamble(TrimmedPreamble(doc)) == TrimmedPreamble(doc)
  {
  }

  /** What is removed ends at the first Introduction heading and holds no other. */
  lemma {:induction false} TrimRemovesThroughIntroduction(doc: seq<Block>)
    requires TrimmedPreamble(doc) != doc
    ensures var n := |doc| - |TrimmedPreamble(doc)|;
      n > 0 && IsIntroductionHeading(doc[n - 1])
      && (forall i :: 0 <= i < n - 1 ==> !IsIntroductionHeading(doc[i]))
      && doc[n..] == TrimmedPreamble(doc)
  {
  }

  /** A parsed markdown document: its list of blocks, which the importer removes from in place. */
  class MarkdownDocument {
    var blocks: seq<Block>

    constructor(blocks: seq<Block>)
      ensures this.blocks == blocks
    {
      this.blocks := blocks;
    }

    /** RemoveAt: the block at index taken out, the others kept in order. */
    method RemoveAt(index: nat)
      requires index < |blocks|
      modifies this
      ensures blocks == old(blocks[..index] + blocks[index + 1..])
    {
      blocks := blocks[..index] + blocks[index + 1..];
    }
  }

  /** TrimArticlePreamble, removing the blocks from the Introduction heading back to the first. */
  method TrimArticlePreamble(document: MarkdownDocument)
    modifies document
    ensures document.blocks == TrimmedPreamble(old(document.blocks))
  {
    var blocks := document.blocks;
    if |blocks| > 1 && !blocks[0].Paragraph? {
      var k := IntroductionIndex(blocks);
      if k >= 0 && |blocks| > k + 1 && blocks[k + 1].Paragraph? {
        var i := k;
        while i >= 0
          invariant -1 <= i <= k
          invariant document.blocks == blocks[..i + 1] + blocks[k + 1..]
        {
          ghost var before := document.blocks;
          document.RemoveAt(i);
          assert document.blocks == blocks[..i] + blocks[k + 1..] by {
            assert before[..i] == blocks[..i];
            assert before[i + 1..] == blocks[k + 1..];
          }
          i := i - 1;
        }
        assert blocks[..0] == [];
      }
    }
  }

  /** How many blocks come before the first heading. */
  function LeadingCount(doc: seq<Block>): (r: nat)
    ensures r <= |doc|
    ensures r < |doc| ==> doc[r].Heading?
    ensures forall i :: 0 <= i < r ==> !doc[i].Heading?
  {
    if doc == [] || doc[0].Heading? then 0 else 1 + LeadingCount(doc[1..])
  }

  /** The blocks rendered one after the other. */
  function RenderAll(blocks: seq<Block>, render: Block -> string): string
  {
    if blocks == [] then "" else RenderAll(blocks[..|blocks| - 1], render) + render(blocks[|blocks| - 1])
  }

  /** The introduction loop: the blocks before the first heading rendered and removed. */
  method CollectIntroduction(document: MarkdownDocument, render: Block -> string) returns (text: string)
    modifies document
    ensures var n := LeadingCount(old(document.blocks));
      text == RenderAll(old(document.blocks)[..n], render) && document.blocks == old(document.blocks)[n..]
  {
    ghost var blocks := document.blocks;
    ghost var n := LeadingCount(blocks);
    text := "";
    ghost var i := 0;
    while |document.blocks| > 0 && !document.blocks[0].Heading?
      invariant 0 <= i <= n
      invariant document.blocks == blocks[i..]
      invariant text == RenderAll(blocks[..i], render)
      decreases |document.blocks|
    {
      assert blocks[..i + 1][..i] == blocks[..i];
      text := text + render(document.blocks[0]);
      document.RemoveAt(0);
      assert blocks[i..][1..] == blocks[i + 1..];
      i := i + 1;
    }
  }

  /** The introduction splits the document: none of its blocks is a heading, and what is left is empty or starts with one. */
  lemma {:induction false} IntroductionSplit(doc: seq<Block>)
    ensures var n := LeadingCount(doc);
      doc == doc[..n] + doc[n..]
      && (forall i :: 0 <= i < n ==> !doc[i].Heading?)
      && (doc[n..] == [] || doc[n..][0].Heading?)
  {
  }

  /** The paragraph a block contributes: a level-2 heading with text gives its name and anchor. */
  function ParagraphOf(b: Block, unicode: HeadingRenderer.UnicodeTables, letterOrDigit: char -> bool): (r: seq<DocParagraph>)
    ensures |r| <= 1
    ensures r != [] <==> b.Heading? && b.level == 2 && b.firstChild.Some?
    ensures r != [] ==>
      (r[0].name == b.firstChild.value && |r[0].uri| >= 1 && r[0].uri[0] == '#'
       && r[0].uri[1..] == HeadingRenderer.EscapedName(b.firstChild, unicode, letterOrDigit).value)
  {
    if b.Heading? && b.level == 2 && b.firstChild.Some? then
      [DocParagraph(b.firstChild.value, "#" + HeadingRenderer.EscapedName(b.firstChild, unicode, letterOrDigit).value)]
    else []
  }

  /** ParseParagraphs: the paragraphs of the blocks, in document order. */
  function ParseParagraphs(doc: seq<Block>, unicode: HeadingRenderer.UnicodeTables, letterOrDigit: char -> bool): (r: seq<DocParagraph>)
    ensures |r| <= |doc|
    decreases |doc|
  {
    if doc == [] then [] else ParagraphOf(doc[0], unicode, letterOrDigit) + ParseParagraphs(doc[1..], unicode, letterOrDigit)
  }

  /** ParseParagraphs keeps document order: two documents one after the other give their paragraphs one after the other. */
  lemma {:induction false} ParagraphsAppend(a: seq<Block>, b: seq<Block>, unicode: HeadingRenderer.UnicodeTables, letterOrDigit: char -> bool)
    ensures ParseParagraphs(a + b, unicode, letterOrDigit)
      == ParseParagraphs(a, unicode, letterOrDigit) + ParseParagraphs(b, unicode, letterOrDigit)
    decreases |a|
  {
    if a != [] {
      assert (a + b)[0] == a[0];
      assert (a + b)[1..] == a[1..] + b;
      ParagraphsAppend(a[1..], b, unicode, letterOrDigit);
    } else {
      assert a + b == b;
    }
  }

  /** Blocks without a level-2 heading give no paragraphs; in particular, an introduction gives none. */
  lemma {:induction false} NoHeadingNoParagraphs(doc: seq<Block>, unicode: HeadingRenderer.UnicodeTables, letterOrDigit: char -> bool)
    requires forall i :: 0 <= i < |doc| ==> !doc[i].Heading?
    ensures ParseParagraphs(doc, unicode, letterOrDigit) == []
    decreases |doc|
  {
    if doc != [] {
      assert forall i :: 0 <= i < |doc[1..]| ==> doc[1..][i] == doc[i + 1];
      NoHeadingNoParagraphs(doc[1..], unicode, letterOrDigit);
    }
  }

  /** IsNullOrWhiteSpace made null. */
  function IntroductionText(text: string): (r: Option<string>)
    ensures r.None? <==> AllWhiteSpace(text)
    ensures r.Some? ==> r.value == text
  {
    if AllWhiteSpace(text) then None else Some(text)
  }

  /** The front matter of a document: the lines of its first block when that is a front-matter block. */
  function FrontMatterOf(doc: seq<Block>): Option<seq<string>>
  {
    if |doc| > 0 && doc[0].FrontMatterBlock? then Some(doc[0].lines) else None
  }

  /** ImportArticle on the parsed blocks: front matter, preamble, introduction, defaults and paragraphs; null for an ignored article. */
  function ImportedArticle(doc: seq<Block>, relativePath: string, render: Block -> string,
                           unicode: HeadingRenderer.UnicodeTables, letterOrDigit: char -> bool): Result<Option<ArticleData>, Exception>
  {
    var front := FrontMatterOf(doc);
    var read := if front.None? then Ok(MetaState(map[], NoMeta)) else ApplyMetaLines(MetaState(map[], NoMeta), front.value);
    if read.Err? then Err(read.error)
    else if "ignore" in read.value.entries then Ok(None)
    else
      var body := TrimmedPreamble(if front.None? then doc else doc[1..]);
      var n := LeadingCount(body);
      var meta := read.value.meta;
      var title := if meta.title.None? then Some(Paths.FileNameWithoutExtension(relativePath)) else meta.title;
      var category := if meta.category.None? then Some(DocsCategory) else meta.category;
      Ok(Some(ArticleData(meta.(title := title, category := category),
                          IntroductionText(RenderAll(body[..n], render)), relativePath,
                          ParseParagraphs(body[n..], unicode, letterOrDigit))))
  }

  /** A front matter with an "ignore" key, and no line without ':', makes the import return null. */
  lemma {:induction false} IgnoredArticle(doc: seq<Block>, relativePath: string, render: Block -> string,
                                          unicode: HeadingRenderer.UnicodeTables, letterOrDigit: char -> bool)
    requires FrontMatterOf(doc).Some?
    requires ApplyMetaLines(MetaState(map[], NoMeta), FrontMatterOf(doc).value).Ok?
    requires "ignore" in ApplyMetaLines(MetaState(map[], NoMeta), FrontMatterOf(doc).value).value.entries
    ensures ImportedArticle(doc, relativePath, render, unicode, letterOrDigit) == Ok(None)
  {
  }

  /**
   * An imported article always has a title (the file name without
   * extension by default), a category ("Docs" by default), an introduction
   * that is null or not blank, and the relative path as its uri.
   */
  lemma {:induction false} ImportDefaults(doc: seq<Block>, relativePath: string, render: Block -> string,
                                          unicode: HeadingRenderer.UnicodeTables, letterOrDigit: char -> bool)
    requires ImportedArticle(doc, relativePath, render, unicode, letterOrDigit).Ok?
    requires ImportedArticle(doc, relativePath, render, unicode, letterOrDigit).value.Some?
    ensures var a := ImportedArticle(doc, relativePath, render, unicode, letterOrDigit).value.value;
      a.meta.title.Some? && a.meta.category.Some? && a.uri == relativePath
      && (a.introduction.None? || !AllWhiteSpace(a.introduction.value))
      && (FrontMatterOf(doc).None? ==>
            a.meta.title == Some(Paths.FileNameWithoutExtension(relativePath)) && a.meta.category == Some(DocsCategory))
  {
  }

  /** Without front matter every level-2 heading after the trimmed preamble is a paragraph, in order. */
  lemma {:induction false} ParagraphsOfBody(doc: seq<Block>, relativePath: string, render: Block -> string,
                                            unicode: HeadingRenderer.UnicodeTables, letterOrDigit: char -> bool)
    requires FrontMatterOf(doc).None?
    ensures ImportedArticle(doc, relativePath, render, unicode, letterOrDigit).Ok?
    ensures var a := ImportedArticle(doc, relativePath, render, unicode, letterOrDigit).value;
      a.Some? && a.value.paragraphs == ParseParagraphs(TrimmedPreamble(doc), unicode, letterOrDigit)
  {
    var body := TrimmedPreamble(doc);
    var n := LeadingCount(body);
    assert body == body[..n] + body[n..];
    ParagraphsAppend(body[..n], body[n..], unicode, letterOrDigit);
    NoHeadingNoParagraphs(body[..n], unicode, letterOrDigit);
  }

  /** The record ImportArticle returns, as a value. */
  function DataOf(article: DocArticle): ArticleData
    reads article
  {
    ArticleData(article.Meta(), article.introduction, if article.uri.Some? then article.uri.value else "", article.paragraphs)
  }

  /** ImportArticle on a parsed document: a fresh article holding ImportedArticle's fields, or null, or the front matter's exception. */
  method ImportArticle(doc: seq<Block>, relativePath: string, render: Block -> string,
                       unicode: HeadingRenderer.UnicodeTables, letterOrDigit: char -> bool)
    returns (r: Result<Option<DocArticle>, Exception>)
    ensures var s := ImportedArticle(doc, relativePath, render, unicode, letterOrDigit);
      (r.Err? <==> s.Err?) && (r.Err? ==> r.error == s.error)
      && (r.Ok? ==> (r.value.None? <==> s.value.None?))
      && (r.Ok? && r.value.Some? ==> fresh(r.value.value) && DataOf(r.value.value) == s.value.value)
  {
    var result := new DocArticle();
    var document := new MarkdownDocument(doc);
    if |doc| > 0 && doc[0].FrontMatterBlock? {
      var meta := ApplyMetadata(doc[0].lines, result);
      if meta.Err? {
        return Err(meta.error);
      }
      if "ignore" in meta.value {
        return Ok(None);
      }
      document.RemoveAt(0);
      assert document.blocks == doc[1..];
    }
    TrimArticlePreamble(document);
    var intro := CollectIntroduction(document, render);
    result.introduction := IntroductionText(intro);
    if result.title.None? {
      result.title := Some(Paths.FileNameWithoutExtension(relativePath));
    }
    result.uri := Some(relativePath);
    if result.category.None? {
      result.category := Some(DocsCategory);
    }
    result.paragraphs := ParseParagraphs(document.blocks, unicode, letterOrDigit);
    return Ok(Some(result));
  }
}
