/**
 * The slice of the System.Xml DOM the documentation parser reads: text
 * nodes, elements with attributes and children, and every other node kind
 * (comments, CDATA, whitespace nodes, ...) folded into one case.
 */
module Xml {
  import opened Wrappers
  import opened Strings

  datatype Node =
    | Text(value: string)
    | Elem(name: string, attrs: seq<(string, string)>, children: seq<Node>)
    | Other(outerXml: string, innerText: string)

  /** XmlElement.GetAttribute: the attribute's value, or "" when it is missing. */
  function GetAttribute(attrs: seq<(string, string)>, name: string): (r: string)
    ensures (forall i :: 0 <= i < |attrs| ==> attrs[i].0 != name) ==> r == ""
    ensures forall i :: (0 <= i < |attrs| && attrs[i].0 == name
      && (forall j :: 0 <= j < i ==> attrs[j].0 != name)) ==> r == attrs[i].1
  {
    if attrs == [] then ""
    else if attrs[0].0 == name then attrs[0].1
    else GetAttribute(attrs[1..], name)
  }

  /** XmlNode[name]: the first child element with that name, or null. */
  function ChildElement(children: seq<Node>, name: string): (r: Option<Node>)
    ensures r.Some? ==> r.value in children && r.value.Elem? && r.value.name == name
    ensures r.None? ==> forall c :: c in children ==> !(c.Elem? && c.name == name)
  {
    if children == [] then None
    else if children[0].Elem? && children[0].name == name then Some(children[0])
    else ChildElement(children[1..], name)
  }

  /** XmlNode.InnerText: the concatenated text of all descendants. */
  function InnerText(n: Node): string
  {
    match n
    case Text(v) => v
    case Other(_, t) => t
    case Elem(_, _, cs) => InnerTexts(cs)
  }

  function InnerTexts(cs: seq<Node>): string
  {
    if cs == [] then "" else InnerText(cs[0]) + InnerTexts(cs[1..])
  }

  /** XmlNode.OuterXml, without character escaping. */
  function OuterXml(n: Node): string
  {
    match n
    case Text(v) => v
    case Other(o, _) => o
    case Elem(name, attrs, cs) => "<" + name + Attributes(attrs) + ">" + OuterXmls(cs) + "</" + name + ">"
  }

  function OuterXmls(cs: seq<Node>): string
  {
    if cs == [] then "" else OuterXml(cs[0]) + OuterXmls(cs[1..])
  }

  function Attributes(attrs: seq<(string, string)>): string
  {
    if attrs == [] then "" else " " + attrs[0].0 + "=\"" + attrs[0].1 + "\"" + Attributes(attrs[1..])
  }

  /** The element children of a node list, in order (Enumerable.OfType<XmlElement>). */
  function ElementsOf(cs: seq<Node>): (r: seq<Node>)
    ensures forall c :: c in r ==> c.Elem? && c in cs
    ensures |r| <= |cs|
  {
    if cs == [] then []
    else (if cs[0].Elem? then [cs[0]] else []) + ElementsOf(cs[1..])
  }

  /** A node count, the measure the recursive parsers descend on. */
  function Size(n: Node): (k: nat)
    ensures k >= 1
  {
    match n
    case Elem(_, _, cs) => 1 + SizeAll(cs)
    case _ => 1
  }

  function SizeAll(cs: seq<Node>): nat
  {
    if cs == [] then 0 else Size(cs[0]) + SizeAll(cs[1..])
  }

  lemma {:induction false} SizeMember(c: Node, cs: seq<Node>)
    requires c in cs
    ensures Size(c) <= SizeAll(cs)
  {
    if cs[0] != c {
      SizeMember(c, cs[1..]);
    }
  }
}
