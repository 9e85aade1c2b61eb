/**
 * Rich documentation text: a sequence of elements (trimmed text runs, crefs,
 * paragraphs, code, lists, ...), with the null-tolerant concatenation the
 * XML parser uses to merge repeated sections.
 */
module DocTexts {
  import opened Wrappers
  import opened Strings
  import opened CodeReferences

  datatype ListType = Bullet | Number | Table

  /**
   * One slot of a DocText. The C# array holds objects: strings for text runs,
   * element objects for markup, and null for slots the parser leaves unfilled.
   */
  datatype Element =
    | TextRun(text: string)
    | See(cref: Option<CodeReference>)
    | Para(body: Option<DocText>)
    | ParamRef(name: string)
    | TypeParamRef(name: string)
    | Code(code: string)
    | DocList(listType: ListType, header: Option<ListItem>, items: seq<ListItem>)
    | Unknown(markup: string)
    | Null

  datatype ListItem = ListItem(term: Option<DocText>, description: Option<DocText>)

  datatype DocText = DocText(elements: seq<Element>)

  /** The elements of a possibly-null text; null contributes none. */
  function Elements(d: Option<DocText>): seq<Element>
  {
    if d.Some? then d.value.elements else []
  }

  /** The DocText constructor: a null element array throws. */
  function Make(elements: Option<seq<Element>>): (r: Result<DocText, Exception>)
    ensures elements.None? <==> r == Err(ArgumentNull("elements"))
    ensures elements.Some? ==> r.Ok? && r.value.elements == elements.value
  {
    if elements.None? then Err(ArgumentNull("elements")) else Ok(DocText(elements.value))
  }

  /** DocText.Concat: null gives back the receiver; otherwise a fresh text of both element lists. */
  function Concat(a: DocText, other: Option<DocText>): (r: DocText)
    ensures other.None? ==> r == a
    ensures |r.elements| == |a.elements| + |Elements(other)|
    ensures r.elements[..|a.elements|] == a.elements
    ensures r.elements[|a.elements|..] == Elements(other)
  {
    if other.None? then a
    else DocText(a.elements + other.value.elements)
  }

  /** operator +: null on either side gives back the other side. */
  function Plus(lhs: Option<DocText>, rhs: Option<DocText>): (r: Option<DocText>)
    ensures lhs.None? ==> r == rhs
    ensures rhs.None? ==> r == lhs
    ensures r.None? <==> lhs.None? && rhs.None?
    ensures Elements(r) == Elements(lhs) + Elements(rhs)
  {
    if lhs.None? then rhs
    else if rhs.None? then lhs
    else Some(Concat(lhs.value, rhs))
  }

  /** + is associative, so repeated sections merge the same way in any grouping. */
  lemma {:induction false} PlusAssociative(a: Option<DocText>, b: Option<DocText>, c: Option<DocText>)
    ensures Plus(Plus(a, b), c) == Plus(a, Plus(b, c))
  {
    if a.Some? && b.Some? && c.Some? {
      assert (a.value.elements + b.value.elements) + c.value.elements
        == a.value.elements + (b.value.elements + c.value.elements);
    }
  }

  /** One element as string.Join prints it: null prints as nothing. */
  function Show(e: Element, show: Element -> string): string
  {
    if e.Null? then "" else show(e)
  }

  function ShowAll(es: seq<Element>, show: Element -> string): (r: seq<string>)
    ensures |r| == |es|
    ensures forall i :: 0 <= i < |es| ==> r[i] == Show(es[i], show)
  {
    if es == [] then [] else [Show(es[0], show)] + ShowAll(es[1..], show)
  }

  /**
   * DocText.ToString: the elements joined with single spaces. How each kind
   * of element prints itself is outside this model and comes in as show.
   */
  function ToString(d: DocText, show: Element -> string): (r: string)
    ensures d.elements == [] ==> r == ""
    ensures |d.elements| == 1 ==> r == Show(d.elements[0], show)
    ensures |d.elements| > 1 ==> StartsWith(r, Show(d.elements[0], show) + " ")
  {
    Join(" ", ShowAll(d.elements, show))
  }

  lemma {:induction false} JoinAppend(sep: string, a: seq<string>, b: seq<string>)
    requires |a| > 0 && |b| > 0
    ensures Join(sep, a + b) == Join(sep, a) + sep + Join(sep, b)
    decreases |a|
  {
    if |a| == 1 {
      assert (a + b)[1..] == b;
    } else {
      assert (a + b)[1..] == a[1..] + b;
      JoinAppend(sep, a[1..], b);
    }
  }

  /** Printing a concatenation prints both texts with one space between them. */
  lemma {:induction false} ToStringConcat(a: DocText, b: DocText, show: Element -> string)
    requires |a.elements| > 0 && |b.elements| > 0
    ensures ToString(Concat(a, Some(b)), show) == ToString(a, show) + " " + ToString(b, show)
  {
    ShowAllAppend(a.elements, b.elements, show);
    JoinAppend(" ", ShowAll(a.elements, show), ShowAll(b.elements, show));
  }

  /** Showing two element lists back to back shows each in turn. */
  lemma {:induction false} ShowAllAppend(a: seq<Element>, b: seq<Element>, show: Element -> string)
    ensures ShowAll(a + b, show) == ShowAll(a, show) + ShowAll(b, show)
  {
    var all := ShowAll(a + b, show);
    var sa := ShowAll(a, show);
    var sb := ShowAll(b, show);
    forall i | 0 <= i < |all| ensures all[i] == (sa + sb)[i] {
      if i < |a| {
        assert (a + b)[i] == a[i];
      } else {
        assert (a + b)[i] == b[i - |a|];
      }
    }
  }
}
