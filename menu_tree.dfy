/**
 * MenuTreeBuilder: the navigation menu of a documentation version. Pages
 * and folder titles are recorded as they are imported; Build then turns the
 * page paths into a tree, one node per path segment, pages sharing a prefix
 * sharing its nodes.
 */
module MenuTree {
  import opened Wrappers
  import opened Strings

  /**
   * The route values object of a link. The importer passes an anonymous
   * object with the version tag and the page path; ConvertEntry as written
   * also stores an array of entries here.
   */
  datatype RouteObject =
    | NoRouteValues
    | PageRoute(version: Option<string>, page: string)
    | EntryArray(items: seq<TreeEntry>)

  /** LinkInfo: the name, route name and route values of a menu link. */
  datatype LinkInfo = LinkInfo(name: Option<string>, routeName: Option<string>, routeParams: RouteObject)

  /** The Entries array of a TreeEntry: null, or the child entries. */
  datatype Children = NullEntries | Children(items: seq<TreeEntry>)

  /** TreeEntry: a link and, for a group, its child entries. */
  datatype TreeEntry = TreeEntry(link: LinkInfo, entries: Children)

  /** The Page struct recorded by AddPage and AddFolder; default(Page) has every field null. */
  datatype Page = Page(path: Option<string>, name: Option<string>, routeName: Option<string>, routeParams: RouteObject)

  /** TreeBuildEntry, the node Build grows; the root has neither a segment nor a Uri. */
  datatype BuildNode = BuildNode(
    name: Option<string>,
    entries: seq<BuildNode>,
    uriPart: Option<string>,
    uri: Option<string>,
    routeName: Option<string>,
    routeParams: RouteObject)

  const EmptyRoot: BuildNode := BuildNode(None, [], None, None, None, NoRouteValues)

  /** The pieces of a split text that are not empty (StringSplitOptions.RemoveEmptyEntries). */
  function NonEmpty(parts: seq<string>): (r: seq<string>)
    ensures forall i :: 0 <= i < |r| ==> r[i] != [] && r[i] in parts
  {
    if parts == [] then []
    else (if parts[0] == [] then [] else [parts[0]]) + NonEmpty(parts[1..])
  }

  lemma {:induction false} NonEmptyAppend(a: seq<string>, b: seq<string>)
    ensures NonEmpty(a + b) == NonEmpty(a) + NonEmpty(b)
    decreases |a|
  {
    if a != [] {
      assert (a + b)[0] == a[0];
      assert (a + b)[1..] == a[1..] + b;
      NonEmptyAppend(a[1..], b);
    } else {
      assert a + b == b;
    }
  }

  /** Split(path, '/', RemoveEmptyEntries): the path segments. */
  function Segments(path: string): (r: seq<string>)
    ensures forall i :: 0 <= i < |r| ==> r[i] != [] && '/' !in r[i]
  {
    NonEmpty(Split(path, '/'))
  }

  /** The first occurrence of c in a + [c] + b lies in a when a holds c, and is the added one otherwise. */
  lemma {:induction false} IndexOfAround(a: string, b: string, c: char)
    ensures IndexOf(a + [c] + b, c) == (if c in a then IndexOf(a, c) else |a|)
  {
    var s := a + [c] + b;
    IndexOfFirst(s, c);
    IndexOfFirst(a, c);
    var k := IndexOf(s, c);
    assert s[|a|] == c;
    assert forall i :: 0 <= i < k ==> s[i] != c by {
      forall i | 0 <= i < k ensures s[i] != c {
        assert s[..k][i] == s[i];
      }
    }
    if c in a {
      var j := IndexOf(a, c);
      assert s[j] == c;
      assert forall i :: 0 <= i < j ==> s[i] != c by {
        forall i | 0 <= i < j ensures s[i] != c {
          assert a[..j][i] == s[i];
        }
      }
    } else {
      assert forall i :: 0 <= i < |a| ==> s[i] != c by {
        forall i | 0 <= i < |a| ensures s[i] != c {
          assert s[i] == a[i];
        }
      }
    }
  }

  /** Splitting at a separator splits each side separately. */
  lemma {:induction false} SplitAround(a: string, b: string, c: char)
    ensures Split(a + [c] + b, c) == Split(a, c) + Split(b, c)
    decreases |a|
  {
    var s := a + [c] + b;
    IndexOfAround(a, b, c);
    IndexOfFirst(a, c);
    if c in a {
      var k := IndexOf(a, c);
      assert s[k + 1..] == a[k + 1..] + [c] + b;
      assert s[..k] == a[..k];
      SplitAround(a[k + 1..], b, c);
    } else {
      assert s[..|a|] == a && s[|a| + 1..] == b;
    }
  }

  /** A path without '/' is one segment, or none when it is empty. */
  lemma {:induction false} SegmentsSingle(path: string)
    requires '/' !in path
    ensures Segments(path) == if path == [] then [] else [path]
  {
    IndexOfFirst(path, '/');
    assert Split(path, '/') == [path];
    assert NonEmpty([path]) == (if path == [] then [] else [path]) + NonEmpty([]);
  }

  /** The segments of a + "/" + b are those of a followed by those of b. */
  lemma {:induction false} SegmentsAround(a: string, b: string)
    ensures Segments(a + "/" + b) == Segments(a) + Segments(b)
  {
    SplitAround(a, b, '/');
    NonEmptyAppend(Split(a, '/'), Split(b, '/'));
  }

  /** Where the child for a segment is: the first entry with that UriPart, or -1. */
  function ChildIndex(entries: seq<BuildNode>, p: string): (r: int)
    ensures -1 <= r < |entries|
    ensures r >= 0 ==> entries[r].uriPart == Some(p)
    ensures forall i :: 0 <= i < |entries| && (r < 0 || i < r) ==> entries[i].uriPart != Some(p)
  {
    if entries == [] then -1
    else if entries[0].uriPart == Some(p) then 0
    else
      var k := ChildIndex(entries[1..], p);
      if k < 0 then -1 else k + 1
  }

  /** Which AddFolder call names a Uri: the first whose path is that Uri, or -1. */
  function FolderIndex(folders: seq<Page>, uri: string): (r: int)
    ensures -1 <= r < |folders|
    ensures r >= 0 ==> folders[r].path == Some(uri)
    ensures forall i :: 0 <= i < |folders| && (r < 0 || i < r) ==> folders[i].path != Some(uri)
  {
    if folders == [] then -1
    else if folders[0].path == Some(uri) then 0
    else
      var k := FolderIndex(folders[1..], uri);
      if k < 0 then -1 else k + 1
  }

  /** The folder name for a Uri: that call's name, or the null Name of default(Page) when none matches. */
  function FolderName(folders: seq<Page>, uri: string): Option<string>
  {
    var k := FolderIndex(folders, uri);
    if k < 0 then None else folders[k].name
  }

  /** The Uri of a child: its segment under the root, else the parent's Uri, '/', and the segment. */
  function ChildUri(parentUri: Option<string>, p: string): string
  {
    if parentUri.None? then p else parentUri.value + "/" + p
  }

  /** The node Build creates for a missing segment: named after the folder for its Uri, routed like the page. */
  function NewChild(parent: BuildNode, p: string, page: Page, folders: seq<Page>): (r: BuildNode)
  {
    var uri := ChildUri(parent.uri, p);
    var folder := FolderName(folders, uri);
    BuildNode(if folder.Some? then folder else Some(p), [], Some(p), Some(uri), page.routeName, page.routeParams)
  }

  /**
   * The inner loop of Build from node cur: each segment moves to the child
   * with that UriPart, created at the end of the entries when missing; the
   * node reached last takes the page's name.
   */
  function Insert(cur: BuildNode, segs: seq<string>, page: Page, folders: seq<Page>): (r: BuildNode)
    ensures r.uriPart == cur.uriPart && r.uri == cur.uri
    ensures r.routeName == cur.routeName && r.routeParams == cur.routeParams
    ensures segs == [] ==> r == cur.(name := page.name)
    ensures segs != [] ==> r.name == cur.name
    ensures |cur.entries| <= |r.entries| <= |cur.entries| + 1
    ensures forall i :: 0 <= i < |cur.entries| ==>
      (r.entries[i].uriPart == cur.entries[i].uriPart && r.entries[i].uri == cur.entries[i].uri
       && r.entries[i].routeName == cur.entries[i].routeName && r.entries[i].routeParams == cur.entries[i].routeParams)
    decreases |segs|
  {
    if segs == [] then cur.(name := page.name)
    else
      var k := ChildIndex(cur.entries, segs[0]);
      if k >= 0 then cur.(entries := cur.entries[k := Insert(cur.entries[k], segs[1..], page, folders)])
      else cur.(entries := cur.entries + [Insert(NewChild(cur, segs[0], page, folders), segs[1..], page, folders)])
  }

  /** The node a segment path leads to from n, following the first child with each segment. */
  function Lookup(n: BuildNode, segs: seq<string>): Option<BuildNode>
    decreases |segs|
  {
    if segs == [] then Some(n)
    else
      var k := ChildIndex(n.entries, segs[0]);
      if k < 0 then None else Lookup(n.entries[k], segs[1..])
  }

  /** After inserting a page its path leads to a node carrying the page's name. */
  lemma {:induction false} InsertFinds(n: BuildNode, segs: seq<string>, page: Page, folders: seq<Page>)
    ensures Lookup(Insert(n, segs, page, folders), segs).Some?
    ensures Lookup(Insert(n, segs, page, folders), segs).value.name == page.name
    decreases |segs|
  {
    if segs != [] {
      var r := Insert(n, segs, page, folders);
      var k := ChildIndex(n.entries, segs[0]);
      if k >= 0 {
        assert r.entries[k] == Insert(n.entries[k], segs[1..], page, folders);
        assert ChildIndex(r.entries, segs[0]) == k;
        InsertFinds(n.entries[k], segs[1..], page, folders);
      } else {
        var child := NewChild(n, segs[0], page, folders);
        assert r.entries[|n.entries|] == Insert(child, segs[1..], page, folders);
        assert ChildIndex(r.entries, segs[0]) == |n.entries|;
        InsertFinds(child, segs[1..], page, folders);
      }
    }
  }

  /**
   * Inserting a page keeps every node already in the tree reachable by the
   * same path, with the same Uri and route (a node keeps the route of the
   * page that created it); only the node the page ends at is renamed.
   */
  lemma {:induction false} InsertKeeps(n: BuildNode, segs: seq<string>, page: Page, folders: seq<Page>, q: seq<string>)
    requires Lookup(n, q).Some?
    ensures var after := Lookup(Insert(n, segs, page, folders), q);
      after.Some? && after.value.uri == Lookup(n, q).value.uri
      && after.value.routeName == Lookup(n, q).value.routeName
      && after.value.routeParams == Lookup(n, q).value.routeParams
      && (q != segs ==> after.value.name == Lookup(n, q).value.name)
    decreases |q|
  {
    var r := Insert(n, segs, page, folders);
    if q != [] && segs != [] {
      var k := ChildIndex(n.entries, q[0]);
      var j := ChildIndex(n.entries, segs[0]);
      assert ChildIndex(r.entries, q[0]) == k by {
        assert forall i :: 0 <= i < |n.entries| ==> r.entries[i].uriPart == n.entries[i].uriPart;
      }
      if q[0] == segs[0] {
        assert r.entries[k] == Insert(n.entries[k], segs[1..], page, folders);
        assert q[1..] != segs[1..] <== q != segs by {
          if q[1..] == segs[1..] {
            assert q == [q[0]] + q[1..] && segs == [segs[0]] + segs[1..];
          }
        }
        InsertKeeps(n.entries[k], segs[1..], page, folders, q[1..]);
      } else {
        assert r.entries[k] == n.entries[k];
      }
    }
  }

  /** Siblings have different segments, at every level. */
  predicate UniqueParts(n: BuildNode)
    decreases n
  {
    (forall i, j :: 0 <= i < j < |n.entries| ==> n.entries[i].uriPart != n.entries[j].uriPart)
    && (forall i :: 0 <= i < |n.entries| ==> UniqueParts(n.entries[i]))
  }

  /** Inserting a page never gives a node two children for one segment. */
  lemma {:induction false} InsertUnique(n: BuildNode, segs: seq<string>, page: Page, folders: seq<Page>)
    requires UniqueParts(n)
    ensures UniqueParts(Insert(n, segs, page, folders))
    decreases |segs|
  {
    if segs != [] {
      var r := Insert(n, segs, page, folders);
      var k := ChildIndex(n.entries, segs[0]);
      if k >= 0 {
        InsertUnique(n.entries[k], segs[1..], page, folders);
        assert forall i :: 0 <= i < |n.entries| && i != k ==> r.entries[i] == n.entries[i];
      } else {
        var child := NewChild(n, segs[0], page, folders);
        InsertUnique(child, segs[1..], page, folders);
        assert r.entries == n.entries + [Insert(child, segs[1..], page, folders)];
        assert forall i :: 0 <= i < |n.entries| ==> r.entries[i] == n.entries[i];
      }
    }
  }

  /** Every child's Uri is its parent's Uri (if any), '/' and its own segment, at every level. */
  predicate UrisConsistent(n: BuildNode)
    decreases n
  {
    forall i :: 0 <= i < |n.entries| ==>
      (n.entries[i].uriPart.Some? && n.entries[i].uri == Some(ChildUri(n.uri, n.entries[i].uriPart.value))
       && UrisConsistent(n.entries[i]))
  }

  /** Inserting a page keeps the Uri of every node the concatenation of the segments on its path. */
  lemma {:induction false} InsertUris(n: BuildNode, segs: seq<string>, page: Page, folders: seq<Page>)
    requires UrisConsistent(n)
    ensures UrisConsistent(Insert(n, segs, page, folders))
    decreases |segs|
  {
    if segs != [] {
      var r := Insert(n, segs, page, folders);
      var k := ChildIndex(n.entries, segs[0]);
      if k >= 0 {
        InsertUris(n.entries[k], segs[1..], page, folders);
        assert forall i :: 0 <= i < |n.entries| && i != k ==> r.entries[i] == n.entries[i];
      } else {
        var child := NewChild(n, segs[0], page, folders);
        InsertUris(child, segs[1..], page, folders);
        assert r.entries == n.entries + [Insert(child, segs[1..], page, folders)];
        assert forall i :: 0 <= i < |n.entries| ==> r.entries[i] == n.entries[i];
      }
    }
  }

  /**
   * A segment new under n becomes its last child, with the Uri of the rule,
   * the folder name for that Uri or else the segment (or the page name when
   * it is the last segment), and the page's route.
   */
  lemma {:induction false} InsertNewChild(n: BuildNode, segs: seq<string>, page: Page, folders: seq<Page>)
    requires segs != [] && ChildIndex(n.entries, segs[0]) < 0
    ensures var r := Insert(n, segs, page, folders);
      var uri := ChildUri(n.uri, segs[0]);
      var folder := FolderName(folders, uri);
      |r.entries| == |n.entries| + 1
      && r.entries[|n.entries|].uriPart == Some(segs[0])
      && r.entries[|n.entries|].uri == Some(uri)
      && r.entries[|n.entries|].routeName == page.routeName
      && r.entries[|n.entries|].routeParams == page.routeParams
      && r.entries[|n.entries|].name == (if |segs| == 1 then page.name else if folder.Some? then folder else Some(segs[0]))
  {
  }

  /** The outer loop of Build: every page recorded so far inserted in order; a null path throws. */
  function InsertPages(pages: seq<Page>, folders: seq<Page>): (r: Result<BuildNode, Exception>)
    ensures r.Err? <==> exists i :: 0 <= i < |pages| && pages[i].path.None?
    ensures r.Err? ==> r.error == NullReference
    decreases |pages|
  {
    if pages == [] then Ok(EmptyRoot)
    else
      var last := pages[|pages| - 1];
      var before := InsertPages(pages[..|pages| - 1], folders);
      assert forall i :: 0 <= i < |pages| - 1 ==> pages[..|pages| - 1][i] == pages[i];
      if before.Err? then before
      else if last.path.None? then Err(NullReference)
      else Ok(Insert(before.value, Segments(last.path.value), last, folders))
  }

  /** Every page inserted leaves its path reachable in the tree. */
  lemma {:induction false} InsertPagesReach(pages: seq<Page>, folders: seq<Page>, i: nat)
    requires InsertPages(pages, folders).Ok? && i < |pages|
    ensures Lookup(InsertPages(pages, folders).value, Segments(pages[i].path.value)).Some?
    decreases |pages|
  {
    var before := InsertPages(pages[..|pages| - 1], folders);
    var last := pages[|pages| - 1];
    if i == |pages| - 1 {
      InsertFinds(before.value, Segments(last.path.value), last, folders);
    } else {
      assert pages[..|pages| - 1][i] == pages[i];
      InsertPagesReach(pages[..|pages| - 1], folders, i);
      InsertKeeps(before.value, Segments(last.path.value), last, folders, Segments(pages[i].path.value));
    }
  }

  /** The tree Build grows keeps siblings apart and Uris consistent. */
  lemma {:induction false} InsertPagesWellFormed(pages: seq<Page>, folders: seq<Page>)
    requires InsertPages(pages, folders).Ok?
    ensures UniqueParts(InsertPages(pages, folders).value)
    ensures UrisConsistent(InsertPages(pages, folders).value)
    decreases |pages|
  {
    if pages != [] {
      var before := InsertPages(pages[..|pages| - 1], folders);
      var last := pages[|pages| - 1];
      InsertPagesWellFormed(pages[..|pages| - 1], folders);
      InsertUnique(before.value, Segments(last.path.value), last, folders);
      InsertUris(before.value, Segments(last.path.value), last, folders);
    }
  }

  /** The number of nodes of a build tree. */
  function NodeCount(n: BuildNode): nat
    decreases n, 1
  {
    1 + NodesCount(n, n.entries)
  }

  function NodesCount(owner: BuildNode, ns: seq<BuildNode>): nat
    requires forall x :: x in ns ==> x < owner
    decreases owner, 0, |ns|
  {
    if ns == [] then 0
    else
      assert ns[0] in ns;
      assert forall x :: x in ns[1..] ==> x in ns;
      NodeCount(ns[0]) + NodesCount(owner, ns[1..])
  }

  /** The number of entries reachable through Entries from a menu entry. */
  function EntryCount(e: TreeEntry): nat
    decreases e, 1
  {
    1 + (if e.entries.NullEntries? then 0 else EntriesCount(e, e.entries.items))
  }

  function EntriesCount(owner: TreeEntry, es: seq<TreeEntry>): nat
    requires forall x :: x in es ==> x < owner
    decreases owner, 0, |es|
  {
    if es == [] then 0
    else
      assert es[0] in es;
      assert forall x :: x in es[1..] ==> x in es;
      EntryCount(es[0]) + EntriesCount(owner, es[1..])
  }

  /**
   * ConvertEntry as written: a group is built with the (name, routeName,
   * routeParams) constructor, so its children land in the link's route
   * values and its Entries stay null.
   */
  function ConvertEntryAsWritten(e: BuildNode): (r: TreeEntry)
    ensures r.link.name == e.name && r.entries.NullEntries?
    ensures |e.entries| == 0 ==> r.link == LinkInfo(e.name, e.routeName, e.routeParams)
    ensures |e.entries| > 0 ==> r.link.routeName.None? && r.link.routeParams.EntryArray? && |r.link.routeParams.items| == |e.entries|
  {
    if |e.entries| == 0 then TreeEntry(LinkInfo(e.name, e.routeName, e.routeParams), NullEntries)
    else TreeEntry(LinkInfo(e.name, None, EntryArray(seq(|e.entries|, i requires 0 <= i < |e.entries| => ConvertEntryAsWritten(e.entries[i])))), NullEntries)
  }

  /** As written, no converted entry has children reachable through Entries; a group's children sit in its route values. */
  lemma {:induction false} GroupLosesChildren(e: BuildNode)
    ensures EntryCount(ConvertEntryAsWritten(e)) == 1
    ensures e.entries != [] ==>
      (ConvertEntryAsWritten(e).link.routeParams.EntryArray?
       && |ConvertEntryAsWritten(e).link.routeParams.items| == |e.entries|)
  {
  }

  /** ConvertEntry with the (name, entries) constructor for groups: a leaf is a routed link, a group a link without route over its converted children. */
  function ConvertEntry(e: BuildNode): (r: TreeEntry)
    ensures |e.entries| == 0 ==> r == TreeEntry(LinkInfo(e.name, e.routeName, e.routeParams), NullEntries)
    ensures |e.entries| > 0 ==> r.link == LinkInfo(e.name, None, NoRouteValues) && r.entries.Children? && |r.entries.items| == |e.entries|
    decreases e, 1
  {
    if |e.entries| == 0 then TreeEntry(LinkInfo(e.name, e.routeName, e.routeParams), NullEntries)
    else TreeEntry(LinkInfo(e.name, None, NoRouteValues), Children(ConvertEntries(e, e.entries)))
  }

  function ConvertEntries(owner: BuildNode, ns: seq<BuildNode>): (r: seq<TreeEntry>)
    requires forall x :: x in ns ==> x < owner
    ensures |r| == |ns|
    decreases owner, 0, |ns|
  {
    if ns == [] then []
    else
      assert ns[0] in ns;
      assert forall x :: x in ns[1..] ==> x in ns;
      [ConvertEntry(ns[0])] + ConvertEntries(owner, ns[1..])
  }

  /** The corrected conversion keeps every node: the menu has as many entries as the tree has nodes. */
  lemma {:induction false} ConvertKeepsNodes(e: BuildNode)
    ensures EntryCount(ConvertEntry(e)) == NodeCount(e)
    decreases e, 1
  {
    if |e.entries| > 0 {
      var cs := ConvertEntries(e, e.entries);
      assert ConvertEntry(e).entries == Children(cs);
      assert forall x :: x in cs ==> x < ConvertEntry(e) by {
        forall x | x in cs ensures x < ConvertEntry(e) {
          assert x in ConvertEntry(e).entries.items;
        }
      }
      ConvertEntriesKeepNodes(e, ConvertEntry(e), e.entries);
    }
  }

  lemma {:induction false} ConvertEntriesKeepNodes(owner: BuildNode, entry: TreeEntry, ns: seq<BuildNode>)
    requires forall x :: x in ns ==> x < owner
    requires forall x :: x in ConvertEntries(owner, ns) ==> x < entry
    ensures EntriesCount(entry, ConvertEntries(owner, ns)) == NodesCount(owner, ns)
    decreases owner, 0, |ns|
  {
    if ns != [] {
      assert ns[0] in ns;
      assert forall x :: x in ns[1..] ==> x in ns;
      var cs := ConvertEntries(owner, ns);
      assert forall x :: x in cs[1..] ==> x in cs;
      assert cs[0] == ConvertEntry(ns[0]) && cs[1..] == ConvertEntries(owner, ns[1..]);
      assert cs[0] in cs;
      ConvertKeepsNodes(ns[0]);
      ConvertEntriesKeepNodes(owner, entry, ns[1..]);
    }
  }

  /** The whole menu: the root's children converted, in creation order. */
  function Menu(root: BuildNode): (r: seq<TreeEntry>)
    ensures |r| == |root.entries|
  {
    ConvertEntries(root, root.entries)
  }

  /** The whole menu as the code builds it: the root's children converted as written. */
  function MenuAsWritten(root: BuildNode): (r: seq<TreeEntry>)
    ensures |r| == |root.entries|
    ensures forall i :: 0 <= i < |r| ==> r[i].link.name == root.entries[i].name && r[i].entries.NullEntries?
  {
    seq(|root.entries|, i requires 0 <= i < |root.entries| => ConvertEntryAsWritten(root.entries[i]))
  }

  /** As written, the menu is flat: each top-level entry counts once, whatever lies below it. */
  lemma {:induction false} AsWrittenMenuFlat(root: BuildNode)
    ensures forall i :: 0 <= i < |root.entries| ==> EntryCount(MenuAsWritten(root)[i]) == 1
  {
    forall i | 0 <= i < |root.entries|
      ensures EntryCount(MenuAsWritten(root)[i]) == 1
    {
      GroupLosesChildren(root.entries[i]);
    }
  }

  /** MenuTreeBuilder: the pages and folder names recorded for one version. */
  class MenuTreeBuilder {
    var pages: seq<Page>
    var folders: seq<Page>

    constructor()
      ensures pages == [] && folders == []
    {
      pages := [];
      folders := [];
    }

    /** AddPage: records a page under its path, with its route. */
    method AddPage(path: Option<string>, name: Option<string>, routeName: Option<string>, routeParams: RouteObject)
      modifies this
      ensures pages == old(pages) + [Page(path, name, routeName, routeParams)]
      ensures folders == old(folders)
    {
      pages := pages + [Page(path, name, routeName, routeParams)];
    }

    /** AddFolder: records the display name for a folder Uri. */
    method AddFolder(path: Option<string>, name: Option<string>)
      modifies this
      ensures folders == old(folders) + [Page(path, name, None, NoRouteValues)]
      ensures pages == old(pages)
    {
      folders := folders + [Page(path, name, None, NoRouteValues)];
    }

    /** Build: inserts the pages in order, then converts the root's children. */
    method Build() returns (r: Result<seq<TreeEntry>, Exception>)
      ensures r.Err? <==> exists i :: 0 <= i < |pages| && pages[i].path.None?
      ensures r.Ok? ==> r.value == MenuAsWritten(InsertPages(pages, folders).value)
    {
      var root := EmptyRoot;
      for i := 0 to |pages|
        invariant InsertPages(pages[..i], folders) == Ok(root)
      {
        var page := pages[i];
        assert pages[..i + 1][..i] == pages[..i];
        if page.path.None? {
          return Err(NullReference);
        }
        root := Insert(root, Segments(page.path.value), page, folders);
      }
      assert pages[..|pages|] == pages;
      r := Ok(MenuAsWritten(root));
    }
  }
}
