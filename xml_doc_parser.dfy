/**
 * DocsXmlParser: turns the DOM of a compiler-generated XML documentation
 * file into DerivedInfo records. The recursive functions below are the
 * reference definitions; ParseText, ParseList and ParseMember are the
 * source's loops, proved equal to them.
 */
module DocsXmlParser {
  import opened Wrappers
  import opened Strings
  import opened CodeReferences
  import opened DocTexts
  import opened Xml
  import opened XmlInfo
  import opened MemberRelations

  /** ParseDocListType: the list's type attribute. */
  function ParseDocListType(name: string): (r: ListType)
    ensures r == Number <==> name == "number"
    ensures r == Table <==> name == "table"
    ensures r == Bullet <==> name != "number" && name != "table"
  {
    if name == "number" then Number
    else if name == "table" then Table
    else Bullet
  }

  /** ParseCref: the trimmed cref attribute, null when it is empty or missing. */
  function ParseCref(attrs: seq<(string, string)>): (r: Result<Option<CodeReference>, Exception>)
    ensures AllWhiteSpace(GetAttribute(attrs, "cref")) <==> r == Ok(None)
    ensures r.Ok? && r.value.Some? ==> Format(r.value.value) == Trim(GetAttribute(attrs, "cref"))
    ensures r.Err? <==> !AllWhiteSpace(GetAttribute(attrs, "cref")) && Parse(Some(Trim(GetAttribute(attrs, "cref")))).Err?
    ensures r.Err? ==> r.error == Parse(Some(Trim(GetAttribute(attrs, "cref")))).error
  {
    var cref := Trim(GetAttribute(attrs, "cref"));
    if cref == [] then Ok(None)
    else match Parse(Some(cref))
      case Err(e) => Err(e)
      case Ok(c) => ParseThenFormat(Some(cref)); Ok(Some(c))
  }

  /** The child nodes of a node; only elements have any here. */
  function Children(n: Node): seq<Node>
  {
    if n.Elem? then n.children else []
  }

  /** How many children are neither text nor element (comments, CDATA, whitespace nodes, ...). */
  function OtherCount(cs: seq<Node>): (k: nat)
    ensures k <= |cs|
  {
    if cs == [] then 0 else (if cs[0].Other? then 1 else 0) + OtherCount(cs[1..])
  }

  function Nulls(k: nat): (r: seq<Element>)
    ensures |r| == k && forall i :: 0 <= i < k ==> r[i] == Null
  {
    seq(k, _ => Null)
  }

  lemma {:induction false} ChildSmaller(e: Node, o: Option<Node>)
    requires e.Elem? && (o.Some? ==> o.value in e.children)
    ensures o.Some? ==> Size(o.value) < Size(e)
  {
    if o.Some? {
      SizeMember(o.value, e.children);
    }
  }

  /**
   * ParseText of a node: one slot per child. Text is trimmed, elements are
   * converted, and the other node kinds leave null slots, which end up at
   * the back because the running index only moves for text and elements.
   */
  function TextOf(n: Node): (r: Result<DocText, Exception>)
    ensures r.Ok? ==> |r.value.elements| == |Children(n)|
    decreases Size(n), 3
  {
    var cs := Children(n);
    match Slots(cs, [])
    case Err(e) => Err(e)
    case Ok(filled) => Ok(DocText(filled + Nulls(OtherCount(cs))))
  }

  /** ParseText(null) is null. */
  function TextOfOpt(o: Option<Node>): (r: Result<Option<DocText>, Exception>)
    ensures o.None? ==> r == Ok(None)
    ensures o.Some? && r.Ok? ==> r.value.Some?
    decreases if o.Some? then Size(o.value) else 0, 4
  {
    if o.None? then Ok(None)
    else match TextOf(o.value)
      case Err(e) => Err(e)
      case Ok(t) => Ok(Some(t))
  }

  /** The filled slots of ParseText, appended to acc, in document order; the first failing child decides the error. */
  function Slots(cs: seq<Node>, acc: seq<Element>): (r: Result<seq<Element>, Exception>)
    ensures r.Ok? ==> |r.value| == |acc| + |cs| - OtherCount(cs)
    ensures r.Ok? ==> r.value[..|acc|] == acc
    decreases SizeAll(cs), 6
  {
    if cs == [] then Ok(acc)
    else match SlotOf(cs[0])
      case Err(e) => Err(e)
      case Ok(s) => PrefixOfPrefix(acc, s, Slots(cs[1..], acc + s)); Slots(cs[1..], acc + s)
  }

  /** A result that extends acc + s also extends acc. */
  lemma {:induction false} PrefixOfPrefix(acc: seq<Element>, s: seq<Element>, r: Result<seq<Element>, Exception>)
    requires r.Ok? ==> |r.value| >= |acc + s| && r.value[..|acc + s|] == acc + s
    ensures r.Ok? ==> r.value[..|acc|] == acc
  {
    if r.Ok? {
      assert r.value[..|acc|] == r.value[..|acc + s|][..|acc|];
    }
  }

  /** One child of ParseText's loop: its slot, if it fills one. */
  function SlotOf(node: Node): (r: Result<seq<Element>, Exception>)
    ensures r.Ok? ==> |r.value| == (if node.Other? then 0 else 1)
    decreases Size(node), 5
  {
    match node
    case Text(v) => Ok([TextRun(Trim(v))])
    case Other(_, _) => Ok([])
    case Elem(_, _, _) =>
      match ElementOf(node)
      case Err(e) => Err(e)
      case Ok(x) => Ok([x])
  }

  /** The element ParseText makes of a child element, chosen by its name. */
  function ElementOf(e: Node): (r: Result<Element, Exception>)
    requires e.Elem?
    ensures r.Ok? ==> r.value != Null
    ensures r.Ok? && e.name == "paramref" ==> r.value == ParamRef(Trim(GetAttribute(e.attrs, "name")))
    ensures r.Ok? && e.name == "typeparamref" ==> r.value == TypeParamRef(Trim(GetAttribute(e.attrs, "name")))
    ensures r.Ok? && e.name == "c" ==> r.value == Code(Trim(InnerText(e)))
    ensures r.Ok? && e.name !in ["see", "para", "paramref", "typeparamref", "c", "list"] ==>
      r.value == Unknown(Trim(OuterXml(e)))
    decreases Size(e), 4
  {
    if e.name == "see" then
      match ParseCref(e.attrs)
      case Err(x) => Err(x)
      case Ok(c) => Ok(See(c))
    else if e.name == "para" then
      match TextOf(e)
      case Err(x) => Err(x)
      case Ok(t) => Ok(Para(Some(t)))
    else if e.name == "paramref" then Ok(ParamRef(Trim(GetAttribute(e.attrs, "name"))))
    else if e.name == "typeparamref" then Ok(TypeParamRef(Trim(GetAttribute(e.attrs, "name"))))
    else if e.name == "c" then Ok(Code(Trim(InnerText(e))))
    else if e.name == "list" then ListOf(e)
    else Ok(Unknown(Trim(OuterXml(e))))
  }

  /** ParseList: every child must be an element (the foreach casts); the last listheader wins, items keep their order. */
  function ListOf(e: Node): (r: Result<Element, Exception>)
    requires e.Elem?
    ensures r.Ok? ==> r.value.DocList? && r.value.listType == ParseDocListType(GetAttribute(e.attrs, "type"))
    decreases Size(e), 3
  {
    match ListFold(e.children, None, [])
    case Err(x) => Err(x)
    case Ok((h, items)) => Ok(DocList(ParseDocListType(GetAttribute(e.attrs, "type")), h, items))
  }

  function ListFold(cs: seq<Node>, header: Option<ListItem>, items: seq<ListItem>)
    : (r: Result<(Option<ListItem>, seq<ListItem>), Exception>)
    ensures r.Ok? ==> (forall c :: c in cs ==> c.Elem?)
    decreases SizeAll(cs), 6
  {
    if cs == [] then Ok((header, items))
    else if !cs[0].Elem? then Err(InvalidCast)
    else if cs[0].name == "listheader" then
      match ListItemOf(cs[0])
      case Err(x) => Err(x)
      case Ok(it) => ListFold(cs[1..], Some(it), items)
    else if cs[0].name == "item" then
      match ListItemOf(cs[0])
      case Err(x) => Err(x)
      case Ok(it) => ListFold(cs[1..], header, items + [it])
    else ListFold(cs[1..], header, items)
  }

  /** ParseListItem: the texts of the first term and description children, each possibly null. */
  function ListItemOf(e: Node): (r: Result<ListItem, Exception>)
    requires e.Elem?
    decreases Size(e), 2
  {
    var term := ChildElement(e.children, "term");
    var desc := ChildElement(e.children, "description");
    ChildSmaller(e, term);
    ChildSmaller(e, desc);
    match TextOfOpt(term)
    case Err(x) => Err(x)
    case Ok(t) =>
      match TextOfOpt(desc)
      case Err(x) => Err(x)
      case Ok(d) => Ok(ListItem(t, d))
  }

  /** ParseText's slot count: exactly one slot per child node. */
  lemma {:induction false} TextSlots(n: Node)
    requires TextOf(n).Ok?
    ensures var es := TextOf(n).value.elements;
      |es| == |Children(n)|
      && (forall i :: |Children(n)| - OtherCount(Children(n)) <= i < |es| ==> es[i] == Null)
  {
  }

  /** A slot array whose front holds the filled slots and whose back is null is ParseText's result. */
  lemma {:induction false} TextOfFilled(n: Node, filled: seq<Element>, slots: seq<Element>)
    requires Slots(Children(n), []) == Ok(filled)
    requires |slots| == |Children(n)| && |filled| <= |slots| && slots[..|filled|] == filled
    requires forall j :: |filled| <= j < |slots| ==> slots[j] == Null
    ensures TextOf(n) == Ok(DocText(slots))
  {
    var k := OtherCount(Children(n));
    assert |filled| + k == |slots|;
    assert slots == filled + Nulls(k);
  }

  lemma {:induction false} SlotsStep(cs: seq<Node>, i: nat, acc: seq<Element>)
    requires i < |cs|
    ensures SlotOf(cs[i]).Err? ==> Slots(cs[i..], acc) == Err(SlotOf(cs[i]).error)
    ensures SlotOf(cs[i]).Ok? ==> Slots(cs[i..], acc) == Slots(cs[i + 1..], acc + SlotOf(cs[i]).value)
  {
    assert cs[i..][0] == cs[i] && cs[i..][1..] == cs[i + 1..];
    if cs[i].Other? {
      assert acc + [] == acc;
    }
  }

  /** One child of ParseText's loop: a slot written at index for text and elements, nothing for the other kinds. */
  method FillSlot(node: Node, elements: array<Element>, index: nat) returns (r: Result<nat, Exception>)
    requires index < elements.Length
    modifies elements
    ensures SlotOf(node).Err? <==> r.Err?
    ensures r.Err? ==> r.error == SlotOf(node).error
    ensures r.Ok? ==> r.value == index + |SlotOf(node).value|
    ensures r.Ok? ==> elements[..r.value] == old(elements[..index]) + SlotOf(node).value
    ensures r.Ok? ==> elements[r.value..] == old(elements[r.value..])
  {
    if node.Text? {
      elements[index] := TextRun(Trim(node.value));
      return Ok(index + 1);
    } else if node.Elem? {
      var x := ElementOf(node);
      if x.Err? {
        return Err(x.error);
      }
      elements[index] := x.value;
      return Ok(index + 1);
    }
    return Ok(index);
  }

  /**
   * ParseText as written: an array sized to the child count, filled through
   * a running index that moves only for text and element children.
   */
  method ParseText(el: Option<Node>) returns (r: Result<Option<DocText>, Exception>)
    ensures r == TextOfOpt(el)
  {
    if el.None? {
      return Ok(None);
    }
    var cs := Children(el.value);
    var elements := new Element[|cs|](_ => Null);
    var index := 0;
    var i := 0;
    while i < |cs|
      invariant 0 <= index <= i <= |cs|
      invariant Slots(cs, []) == Slots(cs[i..], elements[..index])
      invariant forall j :: index <= j < elements.Length ==> elements[j] == Null
    {
      SlotsStep(cs, i, elements[..index]);
      var next := FillSlot(cs[i], elements, index);
      if next.Err? {
        return Err(next.error);
      }
      index := next.value;
      i := i + 1;
    }
    TextOfFilled(el.value, elements[..index], elements[..]);
    return Ok(Some(DocText(elements[..])));
  }

  /** ParseList as written: a foreach over the children updating header and items. */
  method ParseList(el: Node) returns (r: Result<Element, Exception>)
    requires el.Elem?
    ensures r == ListOf(el)
  {
    var cs := el.children;
    var header: Option<ListItem> := None;
    var items: seq<ListItem> := [];
    var i := 0;
    while i < |cs|
      invariant 0 <= i <= |cs|
      invariant ListFold(cs, None, []) == ListFold(cs[i..], header, items)
    {
      var e := cs[i];
      assert cs[i..][0] == e && cs[i..][1..] == cs[i + 1..];
      if !e.Elem? {
        return Err(InvalidCast);
      }
      if e.name == "listheader" {
        var it := ListItemOf(e);
        if it.Err? {
          return Err(it.error);
        }
        header := Some(it.value);
      } else if e.name == "item" {
        var it := ListItemOf(e);
        if it.Err? {
          return Err(it.error);
        }
        items := items + [it.value];
      }
      i := i + 1;
    }
    return Ok(DocList(ParseDocListType(GetAttribute(el.attrs, "type")), header, items));
  }

  /* Members */

  /** The child tags of <member> that ParseMember acts on; every other name is ignored. */
  datatype Tag =
    | Summary | Remarks | Example | ValueTag | Returns
    | Param | TypeParam | Permission | ExceptionTag | InheritDoc | SeeAlso
    | Ignored
  {
    predicate IsSection() { Summary? || Remarks? || Example? || ValueTag? || Returns? }
  }

  function TagName(t: Tag): string
  {
    match t
    case Summary => "summary"
    case Remarks => "remarks"
    case Example => "example"
    case ValueTag => "value"
    case Returns => "returns"
    case Param => "param"
    case TypeParam => "typeparam"
    case Permission => "permission"
    case ExceptionTag => "exception"
    case InheritDoc => "inheritdoc"
    case SeeAlso => "seealso"
    case Ignored => ""
  }

  /** The case of the switch an element name selects. */
  function TagOf(name: string): (t: Tag)
    ensures t != Ignored ==> TagName(t) == name
    ensures forall u :: u != Ignored && TagName(u) == name ==> t == u
  {
    if name == "summary" then Summary
    else if name == "remarks" then Remarks
    else if name == "example" then Example
    else if name == "value" then ValueTag
    else if name == "returns" then Returns
    else if name == "param" then Param
    else if name == "typeparam" then TypeParam
    else if name == "permission" then Permission
    else if name == "exception" then ExceptionTag
    else if name == "inheritdoc" then InheritDoc
    else if name == "seealso" then SeeAlso
    else Ignored
  }

  function Section(d: DerivedInfo, tag: Tag): Option<DocText>
  {
    match tag
    case Summary => d.summary
    case Remarks => d.remarks
    case Example => d.example
    case ValueTag => d.valueDoc
    case Returns => d.returnsDoc
    case _ => None
  }

  function SetSection(d: DerivedInfo, tag: Tag, t: Option<DocText>): (r: DerivedInfo)
    requires tag.IsSection()
    ensures Section(r, tag) == t
    ensures forall other :: other != tag ==> Section(r, other) == Section(d, other)
  {
    match tag
    case Summary => d.(summary := t)
    case Remarks => d.(remarks := t)
    case Example => d.(example := t)
    case ValueTag => d.(valueDoc := t)
    case Returns => d.(returnsDoc := t)
  }

  /** The parameter map a param or typeparam tag adds to. */
  function Params(d: DerivedInfo, tag: Tag): map<string, DocText>
  {
    if tag == Param then d.parameters else if tag == TypeParam then d.typeParameters else map[]
  }

  /** Dictionary.TryGetValue: the stored text, or null. */
  function Lookup(m: map<string, DocText>, key: string): Option<DocText>
  {
    if key in m then Some(m[key]) else None
  }

  /** The entry list an exception or permission tag appends to. */
  function Entries(d: DerivedInfo, tag: Tag): seq<(CodeReference, DocText)>
  {
    if tag == ExceptionTag then d.exceptions else if tag == Permission then d.permissions else []
  }

  /** The trimmed name attribute, the key of param and typeparam. */
  function ParamKey(e: Node): string
    requires e.Elem?
  {
    Trim(GetAttribute(e.attrs, "name"))
  }

  /**
   * How a child's text is parsed: TextOf in ParseMember. The accumulation
   * rules below hold whatever the text and cref parsers are.
   */
  type TextParser = Node -> Result<DocText, Exception>

  /** How a child's cref attribute is parsed: ParseCref in ParseMember. */
  type CrefParser = seq<(string, string)> -> Result<Option<CodeReference>, Exception>

  /** The effect of one child element of <member> (the switch in ParseMember). */
  function Step(acc: DerivedInfo, e: Node, text: TextParser, cref: CrefParser): (r: Result<DerivedInfo, Exception>)
    requires e.Elem?
    ensures r.Ok? ==> r.value.name == acc.name
  {
    var tag := TagOf(e.name);
    if tag.IsSection() then
      match text(e)
      case Err(x) => Err(x)
      case Ok(t) => Ok(SetSection(acc, tag, Plus(Section(acc, tag), Some(t))))
    else if tag == Param || tag == TypeParam then
      var key := ParamKey(e);
      match text(e)
      case Err(x) => Err(x)
      case Ok(t) =>
        var merged := Plus(Lookup(Params(acc, tag), key), Some(t)).value;
        if tag == Param then Ok(acc.(parameters := acc.parameters[key := merged]))
        else Ok(acc.(typeParameters := acc.typeParameters[key := merged]))
    else if tag == Permission || tag == ExceptionTag then
      match cref(e.attrs)
      case Err(x) => Err(x)
      case Ok(c) =>
        if c.None? then Err(ArgumentNull("key"))
        else
          match text(e)
          case Err(x) => Err(x)
          case Ok(t) =>
            if tag == Permission then Ok(acc.(permissions := acc.permissions + [(c.value, t)]))
            else Ok(acc.(exceptions := acc.exceptions + [(c.value, t)]))
    else if tag == InheritDoc then
      match cref(e.attrs)
      case Err(x) => Err(x)
      case Ok(c) => Ok(acc.(inheritDoc := true, inheritDocCref := c))
    else if tag == SeeAlso then
      match cref(e.attrs)
      case Err(x) => Err(x)
      case Ok(c) => Ok(acc.(seeAlso := acc.seeAlso + [c]))
    else Ok(acc)
  }

  /** The foreach of ParseMember: every child must be an element. */
  function MemberFold(cs: seq<Node>, acc: DerivedInfo, text: TextParser, cref: CrefParser): (r: Result<DerivedInfo, Exception>)
    ensures r.Ok? ==> r.value.name == acc.name && forall c :: c in cs ==> c.Elem?
  {
    if cs == [] then Ok(acc)
    else if !cs[0].Elem? then Err(InvalidCast)
    else match Step(acc, cs[0], text, cref)
      case Err(x) => Err(x)
      case Ok(next) => MemberFold(cs[1..], next, text, cref)
  }

  /** A fold that succeeds on a non-empty list took its first step and folded the rest from there. */
  lemma {:induction false} MemberFoldCons(cs: seq<Node>, acc: DerivedInfo, text: TextParser, cref: CrefParser)
    requires cs != [] && MemberFold(cs, acc, text, cref).Ok?
    ensures cs[0].Elem? && Step(acc, cs[0], text, cref).Ok?
    ensures MemberFold(cs, acc, text, cref) == MemberFold(cs[1..], Step(acc, cs[0], text, cref).value, text, cref)
  {
  }

  /** ParseMember: the name attribute must parse as a cref (it is not trimmed). */
  function MemberOf(el: Node): (r: Result<DerivedInfo, Exception>)
    requires el.Elem?
    ensures r.Ok? ==> Parse(Some(GetAttribute(el.attrs, "name"))) == Ok(r.value.name)
    ensures Parse(Some(GetAttribute(el.attrs, "name"))).Err? ==> r.Err?
  {
    match Parse(Some(GetAttribute(el.attrs, "name")))
    case Err(x) => Err(x)
    case Ok(name) => MemberFold(el.children, Blank(name), TextOf, ParseCref)
  }

  /** ParseMember as written: a loop over the children updating one record. */
  method ParseMember(el: Node) returns (r: Result<DerivedInfo, Exception>)
    requires el.Elem?
    ensures r == MemberOf(el)
  {
    var name := Parse(Some(GetAttribute(el.attrs, "name")));
    if name.Err? {
      return Err(name.error);
    }
    var result := Blank(name.value);
    var cs := el.children;
    var i := 0;
    while i < |cs|
      invariant 0 <= i <= |cs|
      invariant MemberFold(cs, Blank(name.value), TextOf, ParseCref) == MemberFold(cs[i..], result, TextOf, ParseCref)
    {
      var e := cs[i];
      assert cs[i..][0] == e && cs[i..][1..] == cs[i + 1..];
      if !e.Elem? {
        return Err(InvalidCast);
      }
      var next := Step(result, e, TextOf, ParseCref);
      if next.Err? {
        return Err(next.error);
      }
      result := next.value;
      i := i + 1;
    }
    return Ok(result);
  }

  /* Accumulation rules, stated over the children in document order. */

  predicate Tagged(e: Node, tag: Tag)
  {
    e.Elem? && TagOf(e.name) == tag
  }

  /** The elements of every child with the given tag, concatenated in order. */
  function TagElements(cs: seq<Node>, tag: Tag, text: TextParser): seq<Element>
  {
    if cs == [] then []
    else
      (if Tagged(cs[0], tag) && text(cs[0]).Ok? then text(cs[0]).value.elements else [])
      + TagElements(cs[1..], tag, text)
  }

  predicate HasTag(cs: seq<Node>, tag: Tag)
  {
    exists i :: 0 <= i < |cs| && Tagged(cs[i], tag)
  }

  lemma {:induction false} HasTagCons(cs: seq<Node>, tag: Tag)
    requires cs != []
    ensures HasTag(cs, tag) <==> Tagged(cs[0], tag) || HasTag(cs[1..], tag)
  {
    if HasTag(cs[1..], tag) {
      var i :| 0 <= i < |cs[1..]| && Tagged(cs[1..][i], tag);
      assert cs[i + 1] == cs[1..][i];
    }
    if HasTag(cs, tag) && !Tagged(cs[0], tag) {
      var i :| 0 <= i < |cs| && Tagged(cs[i], tag);
      assert cs[1..][i - 1] == cs[i];
    }
  }

  /** One step on a section: only a child with that tag changes it, by appending its text. */
  lemma {:induction false} StepSection(acc: DerivedInfo, e: Node, tag: Tag, text: TextParser, cref: CrefParser)
    requires tag.IsSection() && e.Elem? && Step(acc, e, text, cref).Ok?
    ensures Tagged(e, tag) ==> (text(e).Ok?
      && Section(Step(acc, e, text, cref).value, tag) == Plus(Section(acc, tag), Some(text(e).value)))
    ensures !Tagged(e, tag) ==> Section(Step(acc, e, text, cref).value, tag) == Section(acc, tag)
  {
  }

  /** The first step of a fold, as it bears on one section. */
  lemma {:induction false} SectionsCons(cs: seq<Node>, acc: DerivedInfo, tag: Tag, text: TextParser, cref: CrefParser) returns (next: DerivedInfo, head: seq<Element>)
    requires tag.IsSection() && cs != [] && MemberFold(cs, acc, text, cref).Ok?
    ensures MemberFold(cs, acc, text, cref) == MemberFold(cs[1..], next, text, cref)
    ensures Elements(Section(next, tag)) == Elements(Section(acc, tag)) + head
    ensures Section(next, tag).None? <==> Section(acc, tag).None? && !Tagged(cs[0], tag)
    ensures TagElements(cs, tag, text) == head + TagElements(cs[1..], tag, text)
    ensures HasTag(cs, tag) <==> Tagged(cs[0], tag) || HasTag(cs[1..], tag)
  {
    MemberFoldCons(cs, acc, text, cref);
    next := Step(acc, cs[0], text, cref).value;
    StepSection(acc, cs[0], tag, text, cref);
    HasTagCons(cs, tag);
    head := if Tagged(cs[0], tag) then text(cs[0]).value.elements else [];
  }

  /** Repeated summary/remarks/example/value/returns tags are concatenated in document order. */
  lemma {:induction false} SectionsAccumulate(cs: seq<Node>, acc: DerivedInfo, tag: Tag, text: TextParser, cref: CrefParser)
    requires tag.IsSection()
    requires MemberFold(cs, acc, text, cref).Ok?
    ensures var d := MemberFold(cs, acc, text, cref).value;
      Elements(Section(d, tag)) == Elements(Section(acc, tag)) + TagElements(cs, tag, text)
      && (Section(d, tag).None? <==> Section(acc, tag).None? && !HasTag(cs, tag))
  {
    if cs != [] {
      var next, head := SectionsCons(cs, acc, tag, text, cref);
      SectionsAccumulate(cs[1..], next, tag, text, cref);
      AppendAssoc(Elements(Section(acc, tag)), head, TagElements(cs[1..], tag, text));
    }
  }

  predicate IsParamFor(e: Node, tag: Tag, key: string)
  {
    Tagged(e, tag) && ParamKey(e) == key
  }

  /** The elements of every param (typeparam) child whose trimmed name is key, concatenated in order. */
  function ParamElements(cs: seq<Node>, tag: Tag, key: string, text: TextParser): seq<Element>
  {
    if cs == [] then []
    else
      (if IsParamFor(cs[0], tag, key) && text(cs[0]).Ok? then text(cs[0]).value.elements else [])
      + ParamElements(cs[1..], tag, key, text)
  }

  predicate HasParam(cs: seq<Node>, tag: Tag, key: string)
  {
    exists i :: 0 <= i < |cs| && IsParamFor(cs[i], tag, key)
  }

  lemma {:induction false} HasParamCons(cs: seq<Node>, tag: Tag, key: string)
    requires cs != []
    ensures HasParam(cs, tag, key) <==> IsParamFor(cs[0], tag, key) || HasParam(cs[1..], tag, key)
  {
    if HasParam(cs[1..], tag, key) {
      var i :| 0 <= i < |cs[1..]| && IsParamFor(cs[1..][i], tag, key);
      assert cs[i + 1] == cs[1..][i];
    }
    if HasParam(cs, tag, key) && !IsParamFor(cs[0], tag, key) {
      var i :| 0 <= i < |cs| && IsParamFor(cs[i], tag, key);
      assert cs[1..][i - 1] == cs[i];
    }
  }

  lemma {:induction false} StepParam(acc: DerivedInfo, e: Node, tag: Tag, key: string, text: TextParser, cref: CrefParser)
    requires (tag == Param || tag == TypeParam) && e.Elem? && Step(acc, e, text, cref).Ok?
    ensures IsParamFor(e, tag, key) ==> (text(e).Ok?
      && Lookup(Params(Step(acc, e, text, cref).value, tag), key) == Plus(Lookup(Params(acc, tag), key), Some(text(e).value)))
    ensures !IsParamFor(e, tag, key) ==> Lookup(Params(Step(acc, e, text, cref).value, tag), key) == Lookup(Params(acc, tag), key)
  {
  }

  lemma {:induction false} AppendAssoc<T>(a: seq<T>, b: seq<T>, c: seq<T>)
    ensures a + b + c == a + (b + c)
  {
  }

  lemma {:induction false} AppendRegroup(x: seq<Element>, middle: seq<Element>, before: seq<Element>, head: seq<Element>,
    rest: seq<Element>, all: seq<Element>)
    requires x == middle + rest && middle == before + head && all == head + rest
    ensures x == before + all
  {
  }

  /** Repeated param (typeparam) tags with the same trimmed name are concatenated in document order. */
  lemma {:induction false} ParamsAccumulate(cs: seq<Node>, acc: DerivedInfo, tag: Tag, key: string, text: TextParser, cref: CrefParser)
    requires tag == Param || tag == TypeParam
    requires MemberFold(cs, acc, text, cref).Ok?
    ensures Elements(Lookup(Params(MemberFold(cs, acc, text, cref).value, tag), key))
      == Elements(Lookup(Params(acc, tag), key)) + ParamElements(cs, tag, key, text)
  {
    if cs != [] {
      MemberFoldCons(cs, acc, text, cref);
      var next := Step(acc, cs[0], text, cref).value;
      ParamsAccumulate(cs[1..], next, tag, key, text, cref);
      StepParam(acc, cs[0], tag, key, text, cref);
      var head := if IsParamFor(cs[0], tag, key) then text(cs[0]).value.elements else [];
      var before := Elements(Lookup(Params(acc, tag), key));
      var middle := Elements(Lookup(Params(next, tag), key));
      assert middle == before + head;
      assert ParamElements(cs, tag, key, text) == head + ParamElements(cs[1..], tag, key, text);
      var d := MemberFold(cs[1..], next, text, cref).value;
      AppendRegroup(Elements(Lookup(Params(d, tag), key)), middle, before, head,
        ParamElements(cs[1..], tag, key, text), ParamElements(cs, tag, key, text));
    } else {
      assert ParamElements(cs, tag, key, text) == [];
    }
  }

  /** The parameter map has an entry exactly for the names that some param (typeparam) tag carries. */
  lemma {:induction false} ParamKeys(cs: seq<Node>, acc: DerivedInfo, tag: Tag, key: string, text: TextParser, cref: CrefParser)
    requires tag == Param || tag == TypeParam
    requires MemberFold(cs, acc, text, cref).Ok?
    ensures key in Params(MemberFold(cs, acc, text, cref).value, tag) <==> key in Params(acc, tag) || HasParam(cs, tag, key)
  {
    if cs != [] {
      MemberFoldCons(cs, acc, text, cref);
      var next := Step(acc, cs[0], text, cref).value;
      ParamKeys(cs[1..], next, tag, key, text, cref);
      StepParam(acc, cs[0], tag, key, text, cref);
      HasParamCons(cs, tag, key);
    }
  }

  /** The (cref, text) entries of every exception (permission) child, in order. */
  function TagEntries(cs: seq<Node>, tag: Tag, text: TextParser, cref: CrefParser): seq<(CodeReference, DocText)>
  {
    if cs == [] then []
    else
      var e := cs[0];
      (if Tagged(e, tag) && cref(e.attrs).Ok? && cref(e.attrs).value.Some? && text(e).Ok?
       then [(cref(e.attrs).value.value, text(e).value)] else [])
      + TagEntries(cs[1..], tag, text, cref)
  }

  lemma {:induction false} StepEntries(acc: DerivedInfo, e: Node, tag: Tag, text: TextParser, cref: CrefParser)
    requires (tag == ExceptionTag || tag == Permission) && e.Elem? && Step(acc, e, text, cref).Ok?
    ensures Tagged(e, tag) ==> (cref(e.attrs).Ok? && cref(e.attrs).value.Some? && text(e).Ok?
      && Entries(Step(acc, e, text, cref).value, tag) == Entries(acc, tag) + [(cref(e.attrs).value.value, text(e).value)])
    ensures !Tagged(e, tag) ==> Entries(Step(acc, e, text, cref).value, tag) == Entries(acc, tag)
  {
  }

  /**
   * Every exception (permission) tag adds its own entry: the keys are fresh
   * CodeReference objects that never compare equal, so nothing is merged.
   */
  lemma {:induction false} EntriesAccumulate(cs: seq<Node>, acc: DerivedInfo, tag: Tag, text: TextParser, cref: CrefParser)
    requires tag == ExceptionTag || tag == Permission
    requires MemberFold(cs, acc, text, cref).Ok?
    ensures Entries(MemberFold(cs, acc, text, cref).value, tag) == Entries(acc, tag) + TagEntries(cs, tag, text, cref)
  {
    if cs != [] {
      MemberFoldCons(cs, acc, text, cref);
      var next := Step(acc, cs[0], text, cref).value;
      EntriesAccumulate(cs[1..], next, tag, text, cref);
      StepEntries(acc, cs[0], tag, text, cref);
      var e := cs[0];
      var head := if Tagged(e, tag) then [(cref(e.attrs).value.value, text(e).value)] else [];
      assert Entries(next, tag) == Entries(acc, tag) + head;
      assert TagEntries(cs, tag, text, cref) == head + TagEntries(cs[1..], tag, text, cref);
      AppendAssoc(Entries(acc, tag), head, TagEntries(cs[1..], tag, text, cref));
    }
  }

  /**
   * A member that parses has a cref on every exception and permission tag;
   * with ParseCref that means a cref attribute that is not blank.
   */
  lemma {:induction false} EntriesNeedCrefs(cs: seq<Node>, acc: DerivedInfo, text: TextParser, cref: CrefParser)
    requires MemberFold(cs, acc, text, cref).Ok?
    ensures forall e :: e in cs && (Tagged(e, ExceptionTag) || Tagged(e, Permission)) ==>
      cref(e.attrs).Ok? && cref(e.attrs).value.Some?
  {
    if cs != [] {
      MemberFoldCons(cs, acc, text, cref);
      var next := Step(acc, cs[0], text, cref).value;
      EntriesNeedCrefs(cs[1..], next, text, cref);
      forall e | e in cs && (Tagged(e, ExceptionTag) || Tagged(e, Permission))
        ensures cref(e.attrs).Ok? && cref(e.attrs).value.Some?
      {
        if e != cs[0] {
          assert e in cs[1..];
        }
      }
    }
  }

  /** The crefs of every child with the given tag, in order. */
  function TagCrefs(cs: seq<Node>, tag: Tag, cref: CrefParser): seq<Option<CodeReference>>
  {
    if cs == [] then []
    else
      (if Tagged(cs[0], tag) && cref(cs[0].attrs).Ok? then [cref(cs[0].attrs).value] else [])
      + TagCrefs(cs[1..], tag, cref)
  }

  /** Only a seealso child changes the see-also list, by appending its cref. */
  lemma {:induction false} StepSeeAlso(acc: DerivedInfo, e: Node, text: TextParser, cref: CrefParser)
    requires e.Elem? && Step(acc, e, text, cref).Ok?
    ensures Tagged(e, SeeAlso) ==> cref(e.attrs).Ok?
    ensures Step(acc, e, text, cref).value.seeAlso
      == acc.seeAlso + (if Tagged(e, SeeAlso) then [cref(e.attrs).value] else [])
  {
  }

  /** Only an inheritdoc child changes the inheritdoc fields: it sets the flag and its cref. */
  lemma {:induction false} StepInheritDoc(acc: DerivedInfo, e: Node, text: TextParser, cref: CrefParser)
    requires e.Elem? && Step(acc, e, text, cref).Ok?
    ensures var next := Step(acc, e, text, cref).value;
      (Tagged(e, InheritDoc) ==>
            cref(e.attrs).Ok? && next.inheritDoc && next.inheritDocCref == cref(e.attrs).value)
      && (!Tagged(e, InheritDoc) ==> next.inheritDoc == acc.inheritDoc && next.inheritDocCref == acc.inheritDocCref)
  {
  }

  /** The first step of a fold, as it bears on the see-also list. */
  lemma {:induction false} SeeAlsoCons(cs: seq<Node>, acc: DerivedInfo, text: TextParser, cref: CrefParser) returns (next: DerivedInfo, head: seq<Option<CodeReference>>)
    requires cs != [] && MemberFold(cs, acc, text, cref).Ok?
    ensures MemberFold(cs, acc, text, cref) == MemberFold(cs[1..], next, text, cref)
    ensures next.seeAlso == acc.seeAlso + head
    ensures TagCrefs(cs, SeeAlso, cref) == head + TagCrefs(cs[1..], SeeAlso, cref)
  {
    MemberFoldCons(cs, acc, text, cref);
    next := Step(acc, cs[0], text, cref).value;
    StepSeeAlso(acc, cs[0], text, cref);
    head := if Tagged(cs[0], SeeAlso) then [cref(cs[0].attrs).value] else [];
  }

  /** Every seealso tag adds one entry, null when it has no cref. */
  lemma {:induction false} SeeAlsoAccumulate(cs: seq<Node>, acc: DerivedInfo, text: TextParser, cref: CrefParser)
    requires MemberFold(cs, acc, text, cref).Ok?
    ensures MemberFold(cs, acc, text, cref).value.seeAlso == acc.seeAlso + TagCrefs(cs, SeeAlso, cref)
  {
    if cs != [] {
      var next, head := SeeAlsoCons(cs, acc, text, cref);
      SeeAlsoAccumulate(cs[1..], next, text, cref);
      AppendAssoc(acc.seeAlso, head, TagCrefs(cs[1..], SeeAlso, cref));
    }
  }

  /** inheritdoc sets the flag, and the last inheritdoc tag's cref wins. */
  lemma {:induction false} InheritDocLast(cs: seq<Node>, acc: DerivedInfo, text: TextParser, cref: CrefParser)
    requires MemberFold(cs, acc, text, cref).Ok?
    ensures var d := MemberFold(cs, acc, text, cref).value;
      var crefs := TagCrefs(cs, InheritDoc, cref);
      d.inheritDoc == (acc.inheritDoc || crefs != [])
      && d.inheritDocCref == (if crefs == [] then acc.inheritDocCref else crefs[|crefs| - 1])
  {
    if cs != [] {
      MemberFoldCons(cs, acc, text, cref);
      var next := Step(acc, cs[0], text, cref).value;
      InheritDocLast(cs[1..], next, text, cref);
      StepInheritDoc(acc, cs[0], text, cref);
      var rest := TagCrefs(cs[1..], InheritDoc, cref);
      if Tagged(cs[0], InheritDoc) {
        assert TagCrefs(cs, InheritDoc, cref) == [cref(cs[0].attrs).value] + rest;
      } else {
        assert TagCrefs(cs, InheritDoc, cref) == rest;
      }
    }
  }

  /* The document level. */

  /** ParseAssembly: the text of the first <name> child, or null when there is none. */
  function AssemblyName(el: Node): (r: Option<string>)
    ensures r.None? <==> ChildElement(Children(el), "name").None?
    ensures r.Some? ==> r.value == InnerText(ChildElement(Children(el), "name").value)
  {
    match ChildElement(Children(el), "name")
    case None => None
    case Some(n) => Some(InnerText(n))
  }

  /**
   * The records of the <member> elements, in order; ToList stops at the
   * first element whose parse throws and passes that exception on.
   */
  function MemberRecords(els: seq<Node>): (r: Result<seq<DerivedInfo>, Exception>)
    requires forall e :: e in els ==> e.Elem?
    ensures r.Ok? ==> |r.value| == |els| && forall i :: 0 <= i < |els| ==> MemberOf(els[i]) == Ok(r.value[i])
  {
    if els == [] then Ok([])
    else match MemberOf(els[0])
      case Err(x) => Err(x)
      case Ok(d) =>
        match MemberRecords(els[1..])
        case Err(x) => Err(x)
        case Ok(ds) => Ok([d] + ds)
  }

  /** A failure is the exception of the first member element whose parse throws. */
  lemma {:induction false} MemberRecordsFirstError(els: seq<Node>)
    requires forall e :: e in els ==> e.Elem?
    requires MemberRecords(els).Err?
    ensures exists i :: (0 <= i < |els| && MemberOf(els[i]) == Err(MemberRecords(els).error)
      && forall j :: 0 <= j < i ==> MemberOf(els[j]).Ok?)
  {
    if MemberOf(els[0]).Err? {
      assert MemberOf(els[0]) == Err(MemberRecords(els).error);
    } else {
      MemberRecordsFirstError(els[1..]);
      var i :| 0 <= i < |els[1..]| && MemberOf(els[1..][i]) == Err(MemberRecords(els[1..]).error)
        && forall j :: 0 <= j < i ==> MemberOf(els[1..][j]).Ok?;
      assert MemberOf(els[i + 1]) == Err(MemberRecords(els).error);
      forall j | 0 <= j < i + 1 ensures MemberOf(els[j]).Ok? {
        if j > 0 {
          assert els[j] == els[1..][j - 1];
        }
      }
    }
  }

  /** When every element parses, the records are exactly their results. */
  lemma {:induction false} MemberRecordsAllOk(els: seq<Node>, ds: seq<DerivedInfo>)
    requires forall e :: e in els ==> e.Elem?
    requires |ds| == |els| && forall j :: 0 <= j < |els| ==> MemberOf(els[j]) == Ok(ds[j])
    ensures MemberRecords(els) == Ok(ds)
  {
    if els != [] {
      MemberRecordsAllOk(els[1..], ds[1..]);
      assert [ds[0]] + ds[1..] == ds;
    }
  }

  /** MemberRecords on a non-empty list: the first element's error, or the rest's outcome. */
  lemma {:induction false} MemberRecordsCons(els: seq<Node>)
    requires els != [] && forall e :: e in els ==> e.Elem?
    ensures MemberOf(els[0]).Err? ==> MemberRecords(els) == Err(MemberOf(els[0]).error)
    ensures MemberOf(els[0]).Ok? && MemberRecords(els[1..]).Err? ==> MemberRecords(els) == MemberRecords(els[1..])
  {
  }

  /** The first element whose parse throws decides the outcome, whatever follows it. */
  lemma {:induction false} MemberRecordsStops(els: seq<Node>, i: nat)
    requires forall e :: e in els ==> e.Elem?
    requires i < |els| && MemberOf(els[i]).Err? && forall j :: 0 <= j < i ==> MemberOf(els[j]).Ok?
    ensures MemberRecords(els) == Err(MemberOf(els[i]).error)
  {
    MemberRecordsCons(els);
    if i > 0 {
      var rest := els[1..];
      assert rest[i - 1] == els[i];
      forall j | 0 <= j < i - 1 ensures MemberOf(rest[j]).Ok? {
        assert rest[j] == els[j + 1];
      }
      MemberRecordsStops(rest, i - 1);
    }
  }

  /** The records parsed so far, one more parsed element further. */
  lemma {:induction false} ParsedExtend(els: seq<Node>, ds: seq<DerivedInfo>, d: DerivedInfo)
    requires |ds| < |els| && forall e :: e in els ==> e.Elem?
    requires forall j :: 0 <= j < |ds| ==> MemberOf(els[j]) == Ok(ds[j])
    requires MemberOf(els[|ds|]) == Ok(d)
    ensures forall j :: 0 <= j < |ds| + 1 ==> MemberOf(els[j]) == Ok((ds + [d])[j])
  {
    forall j | 0 <= j < |ds| + 1
      ensures MemberOf(els[j]) == Ok((ds + [d])[j])
    {
      if j < |ds| {
        assert (ds + [d])[j] == ds[j];
      }
    }
  }

  /** Select(ParseMember).ToList(): one record per element, in order. */
  method ParseMemberList(els: seq<Node>) returns (r: Result<seq<DerivedInfo>, Exception>)
    requires forall e :: e in els ==> e.Elem?
    ensures r == MemberRecords(els)
  {
    var ds: seq<DerivedInfo> := [];
    var i := 0;
    while i < |els|
      invariant 0 <= i <= |els| && |ds| == i
      invariant forall j :: 0 <= j < i ==> MemberOf(els[j]) == Ok(ds[j])
    {
      var d := ParseMember(els[i]);
      if d.Err? {
        MemberRecordsStops(els, i);
        return Err(d.error);
      }
      ParsedExtend(els, ds, d.value);
      ds := ds + [d.value];
      i := i + 1;
    }
    MemberRecordsAllOk(els, ds);
    return Ok(ds);
  }

  /** ParseMembers: parse every element child as a member, then link the records. */
  method ParseMembers(el: Node) returns (r: Result<Relations, Exception>, ghost records: seq<DerivedInfo>)
    ensures var spec := MemberRecords(ElementsOf(Children(el)));
      (spec.Err? ==> r == Err(spec.error))
      && (spec.Ok? ==> (records == spec.value
        && (r.Err? <==> !Distinct(NamespaceKeys(OfKind(records, Namespace))) || !Distinct(TypeKeys(OfKind(records, Type))))
        && (r.Err? ==> r.error == DuplicateKey)
        && (r.Ok? ==> Wired(r.value, records))))
  {
    var ds := ParseMemberList(ElementsOf(Children(el)));
    if ds.Err? {
      return Err(ds.error), [];
    }
    records := ds.value;
    r := CreateMemberRelations(ds.value);
  }

  /**
   * Parse: the assembly name from the <assembly> child and the node array
   * from the <members> child; a missing child leaves its part null.
   */
  method ParseDocument(document: Node) returns (r: Result<XmlDocumentation, Exception>, ghost rel: Option<Relations>)
    ensures var assembly := ChildElement(Children(document), "assembly");
      r.Ok? ==> r.value.assemblyName == (if assembly.None? then None else AssemblyName(assembly.value))
    ensures var members := ChildElement(Children(document), "members");
      (members.None? ==> r.Ok? && r.value.members.None?)
      && (members.Some? ==> (var spec := MemberRecords(ElementsOf(Children(members.value)));
        (spec.Err? ==> r == Err(spec.error))
        && (spec.Ok? ==> ((r.Err? <==> (!Distinct(NamespaceKeys(OfKind(spec.value, Namespace)))
                                      || !Distinct(TypeKeys(OfKind(spec.value, Type)))))
          && (r.Ok? ==> rel.Some? && r.value.members == Some(rel.value.Flatten()) && Wired(rel.value, spec.value))))))
  {
    var assembly := ChildElement(Children(document), "assembly");
    var members := ChildElement(Children(document), "members");
    var asm := if assembly.None? then None else AssemblyName(assembly.value);
    if members.None? {
      return Ok(XmlDocumentation(asm, None)), None;
    }
    var parsed, records := ParseMembers(members.value);
    if parsed.Err? {
      return Err(parsed.error), None;
    }
    return Ok(XmlDocumentation(asm, Some(parsed.value.Flatten()))), Some(parsed.value);
  }
}
