/**
 * Documentation versions on the site: DocVersion and its equality,
 * VersionBuilder.GetAll (the version picker's view models) and the way
 * SampSharpController picks the version and page for a request.
 */
module Versions {
  import opened Wrappers
  import opened Strings

  /** A value an Equals(object) call can receive: null, a DocVersion, or an object of another type. */
  datatype Object = NullObject | VersionObject(version: DocVersion) | OtherObject

  /** The objects an Object value refers to. */
  function ObjectFrame(obj: Object): set<object>
  {
    if obj.VersionObject? then {obj.version} else {}
  }

  /** DocVersion: a branch's tag (its escaped name), its display name and its default page. */
  class DocVersion {
    var tag: Option<string>
    var displayName: Option<string>
    var defaultPage: Option<string>

    constructor(tag: Option<string>, displayName: Option<string>)
      ensures this.tag == tag && this.displayName == displayName && defaultPage == None
    {
      this.tag := tag;
      this.displayName := displayName;
      defaultPage := None;
    }

    /** Equals(object): false for null and for other types, true for this object, otherwise the tags compared. */
    function Equals(obj: Object): (r: bool)
      reads this, ObjectFrame(obj)
      ensures obj.NullObject? || obj.OtherObject? ==> !r
      ensures obj.VersionObject? ==> (r <==> obj.version.tag == tag)
    {
      if obj.NullObject? then false
      else if obj.VersionObject? && obj.version == this then true
      else if obj.OtherObject? then false
      else tag == obj.version.tag
    }

    /** GetHashCode: the hash of the tag, 0 for a null tag; string hashing is a parameter. */
    function GetHashCode(hash: string -> int): (r: int)
      reads this
      ensures tag.None? ==> r == 0
    {
      if tag.None? then 0 else hash(tag.value)
    }
  }

  /** Equal versions hash alike, whatever the string hash. */
  lemma {:induction false} HashConsistent(a: DocVersion, b: DocVersion, hash: string -> int)
    requires a.Equals(VersionObject(b))
    ensures a.GetHashCode(hash) == b.GetHashCode(hash)
  {
  }

  /** operator ==, through object.Equals(left, right): the same reference, else both non-null and Equals. */
  function OpEquals(left: DocVersion?, right: DocVersion?): (r: bool)
    reads left, right
    ensures left == null && right == null ==> r
    ensures (left == null) != (right == null) ==> !r
    ensures left != null && right != null ==> (r <==> left.tag == right.tag)
  {
    if left == right then true
    else if left == null || right == null then false
    else left.Equals(VersionObject(right))
  }

  /** operator !=: the negation of ==. */
  function OpNotEquals(left: DocVersion?, right: DocVersion?): (r: bool)
    reads left, right
    ensures left == null && right == null ==> !r
    ensures (left == null) != (right == null) ==> r
    ensures left != null && right != null ==> (r <==> left.tag != right.tag)
  {
    !OpEquals(left, right)
  }

  /** == is an equivalence on versions: reflexive, symmetric and transitive. */
  lemma {:induction false} OpEqualsEquivalence(a: DocVersion?, b: DocVersion?, c: DocVersion?)
    ensures OpEquals(a, a)
    ensures OpEquals(a, b) == OpEquals(b, a)
    ensures OpEquals(a, b) && OpEquals(b, c) ==> OpEquals(a, c)
  {
  }

  /** Only the tag matters: versions with one tag are equal whatever their display names and default pages. */
  lemma {:induction false} EqualityIgnoresDisplay(a: DocVersion, b: DocVersion)
    requires a.tag == b.tag && a.displayName != b.displayName && a.defaultPage != b.defaultPage
    ensures OpEquals(a, b) && !OpNotEquals(a, b) && a.Equals(VersionObject(b))
  {
  }

  /** VersionViewModel: what the version picker shows of a version. */
  datatype VersionViewModel = VersionViewModel(displayName: Option<string>, tag: Option<string>, isDefault: bool, defaultPage: Option<string>)

  /** s?.ToLower(), with the ASCII lower-casing of the model. */
  function LowerOption(s: Option<string>): (r: Option<string>)
    ensures r.None? <==> s.None?
    ensures r.Some? ==> IsLower(r.value) && |r.value| == |s.value|
  {
    if s.None? then None else Some(Lower(s.value))
  }

  /** The view model of one version: names copied, default when it equals the configured default, page lower-cased. */
  function ViewOf(v: DocVersion, defaultVersion: DocVersion?): (r: VersionViewModel)
    reads v, defaultVersion
    ensures r.displayName == v.displayName && r.tag == v.tag
    ensures r.isDefault <==> defaultVersion != null && defaultVersion.tag == v.tag
    ensures r.defaultPage == LowerOption(v.defaultPage)
  {
    VersionViewModel(v.displayName, v.tag, OpEquals(v, defaultVersion), LowerOption(v.defaultPage))
  }

  /** VersionBuilder.GetAll: one view model per configured version, in order; a null entry throws. */
  function GetAll(versions: seq<DocVersion?>, defaultVersion: DocVersion?): (r: Result<seq<VersionViewModel>, Exception>)
    reads versions, defaultVersion
    ensures r.Err? <==> null in versions
    ensures r.Err? ==> r.error == NullReference
    ensures r.Ok? ==> |r.value| == |versions|
    ensures r.Ok? ==> forall i :: 0 <= i < |versions| ==> versions[i] != null && r.value[i] == ViewOf(versions[i], defaultVersion)
  {
    if null in versions then Err(NullReference)
    else Ok(seq(|versions|, i requires 0 <= i < |versions| reads versions, defaultVersion => ViewOf(versions[i], defaultVersion)))
  }

  /** With no default version configured, no view model is marked default. */
  lemma {:induction false} NoDefaultNoneMarked(versions: seq<DocVersion?>)
    requires GetAll(versions, null).Ok?
    ensures forall i :: 0 <= i < |versions| ==> !GetAll(versions, null).value[i].isDefault
  {
  }

  /** A documentation file the repository serves; its contents are outside the model. */
  datatype DocFile = DocFile(content: string)

  /** GetFile: both names lower-cased and looked up; null when either is null or nothing is stored. */
  function GetFile(files: map<(string, string), DocFile>, version: Option<string>, name: Option<string>): (r: Option<DocFile>)
    ensures version.None? || name.None? ==> r.None?
    ensures r.Some? ==> (Lower(version.value), Lower(name.value)) in files && r.value == files[(Lower(version.value), Lower(name.value))]
  {
    if version.None? || name.None? then None
    else
      var key := (Lower(version.value), Lower(name.value));
      if key in files then Some(files[key]) else None
  }

  /** Where the first version with a flag is, or -1. */
  function FirstDefault(versions: seq<VersionViewModel>): (r: int)
    ensures -1 <= r < |versions|
    ensures r >= 0 ==> versions[r].isDefault
    ensures forall i :: 0 <= i < |versions| && (r < 0 || i < r) ==> !versions[i].isDefault
  {
    if versions == [] then -1
    else if versions[0].isDefault then 0
    else
      var k := FirstDefault(versions[1..]);
      if k < 0 then -1 else k + 1
  }

  /** Where the first version with a tag is, or -1. */
  function FirstWithTag(versions: seq<VersionViewModel>, tag: Option<string>): (r: int)
    ensures -1 <= r < |versions|
    ensures r >= 0 ==> versions[r].tag == tag
    ensures forall i :: 0 <= i < |versions| && (r < 0 || i < r) ==> versions[i].tag != tag
  {
    if versions == [] then -1
    else if versions[0].tag == tag then 0
    else
      var k := FirstWithTag(versions[1..], tag);
      if k < 0 then -1 else k + 1
  }

  /** The properties SetCurrentPage assigns. */
  datatype PageState = PageState(pageVersion: Option<VersionViewModel>, fallbackVersion: Option<VersionViewModel>, page: Option<DocFile>)

  /**
   * SetCurrentPage on the version list: both arguments lower-cased; a page
   * without a version is rejected; without a default version First throws.
   * Without a page the argument names a page of the default version if
   * such a file exists, else a version whose default page is shown. With a
   * page the argument names the version; an unknown version only resets
   * the fallback.
   */
  function Selection(versions: seq<VersionViewModel>, files: map<(string, string), DocFile>,
                     versionOrPage: Option<string>, page: Option<string>, current: PageState): Result<PageState, Exception>
  {
    var vop := LowerOption(versionOrPage);
    var p := LowerOption(page);
    if p.Some? && vop.None? then Err(Argument("versionOrPage"))
    else
      var d := FirstDefault(versions);
      if d < 0 then Err(InvalidOperation)
      else
        var defaultVersion := versions[d];
        if p.None? then
          var file := GetFile(files, defaultVersion.tag, vop);
          if file.Some? then Ok(PageState(Some(defaultVersion), Some(defaultVersion), file))
          else
            var k := FirstWithTag(versions, vop);
            if k < 0 then Ok(PageState(None, Some(defaultVersion), None))
            else Ok(PageState(Some(versions[k]), Some(versions[k]), GetFile(files, versions[k].tag, versions[k].defaultPage)))
        else
          var k := FirstWithTag(versions, vop);
          if k < 0 then Ok(current.(fallbackVersion := Some(defaultVersion)))
          else Ok(PageState(Some(versions[k]), Some(versions[k]), GetFile(files, versions[k].tag, p)))
  }

  /** A page without a version is an ArgumentException; a list without a default makes First throw. */
  lemma {:induction false} SelectionErrors(versions: seq<VersionViewModel>, files: map<(string, string), DocFile>,
                                           versionOrPage: Option<string>, page: Option<string>, current: PageState)
    ensures page.Some? && versionOrPage.None? ==> Selection(versions, files, versionOrPage, page, current) == Err(Argument("versionOrPage"))
    ensures (page.None? || versionOrPage.Some?) && (forall i :: 0 <= i < |versions| ==> !versions[i].isDefault)
      ==> Selection(versions, files, versionOrPage, page, current) == Err(InvalidOperation)
    ensures Selection(versions, files, versionOrPage, page, current).Err? ==>
      (page.Some? && versionOrPage.None?) || (forall i :: 0 <= i < |versions| ==> !versions[i].isDefault)
  {
  }

  /**
   * After a successful selection there is always a fallback version, one of
   * the listed versions; a page version, when set, is the fallback; and a
   * page this call sets is a file stored under the fallback's tag.
   */
  lemma {:induction false} SelectionConsistent(versions: seq<VersionViewModel>, files: map<(string, string), DocFile>,
                                               versionOrPage: Option<string>, page: Option<string>, current: PageState)
    requires Selection(versions, files, versionOrPage, page, current).Ok?
    ensures var s := Selection(versions, files, versionOrPage, page, current).value;
      s.fallbackVersion.Some? && s.fallbackVersion.value in versions
      && (s.pageVersion.Some? && s.pageVersion != current.pageVersion ==> s.pageVersion == s.fallbackVersion)
      && (s.page.Some? && s.page != current.page ==>
            s.fallbackVersion.value.tag.Some?
            && exists name :: (Lower(s.fallbackVersion.value.tag.value), name) in files
                 && s.page.value == files[(Lower(s.fallbackVersion.value.tag.value), name)])
  {
  }

  /** With a page and an unknown version only the fallback changes: the page and its version stay as they were. */
  lemma {:induction false} UnknownVersionKeepsPage(versions: seq<VersionViewModel>, files: map<(string, string), DocFile>,
                                                   versionOrPage: string, page: string, current: PageState)
    requires FirstDefault(versions) >= 0
    requires FirstWithTag(versions, Some(Lower(versionOrPage))) < 0
    ensures var s := Selection(versions, files, Some(versionOrPage), Some(page), current);
      s.Ok? && s.value.page == current.page && s.value.pageVersion == current.pageVersion
      && s.value.fallbackVersion == Some(versions[FirstDefault(versions)])
  {
  }

  /**
   * A version whose tag has an upper-case letter is never chosen by name:
   * the request is lower-cased before it is compared with the tag as stored.
   */
  lemma {:induction false} UpperCaseTagNotSelectable(versions: seq<VersionViewModel>, files: map<(string, string), DocFile>,
                                                     versionOrPage: Option<string>, page: Option<string>, current: PageState, i: nat)
    requires i < |versions| && versions[i].tag.Some? && !IsLower(versions[i].tag.value)
    requires Selection(versions, files, versionOrPage, page, current).Ok?
    requires !versions[i].isDefault
    ensures Selection(versions, files, versionOrPage, page, current).value.pageVersion != Some(versions[i])
      || current.pageVersion == Some(versions[i])
  {
    var vop := LowerOption(versionOrPage);
    if vop.Some? {
      LowerIdempotent(versionOrPage.value);
    }
  }

  /** SampSharpController: the selected page and versions, and the lazily fetched version list. */
  class SampSharpController {
    var versionsCache: Option<seq<VersionViewModel>>
    var pageVersion: Option<VersionViewModel>
    var fallbackVersion: Option<VersionViewModel>
    var page: Option<DocFile>

    constructor()
      ensures versionsCache == None && pageVersion == None && fallbackVersion == None && page == None
    {
      versionsCache := None;
      pageVersion := None;
      fallbackVersion := None;
      page := None;
    }

    function State(): PageState
      reads this
    {
      PageState(pageVersion, fallbackVersion, page)
    }

    /** Versions: the builder's list (built, what GetAll returns now) on first use, the cached list after. */
    method Versions(built: seq<VersionViewModel>) returns (r: seq<VersionViewModel>)
      modifies this`versionsCache
      ensures old(versionsCache).Some? ==> r == old(versionsCache).value && versionsCache == old(versionsCache)
      ensures old(versionsCache).None? ==> r == built && versionsCache == Some(built)
    {
      if versionsCache.None? {
        versionsCache := Some(built);
      }
      r := versionsCache.value;
    }

    /** SetCurrentPage: the selection made on the (cached) version list; an exception leaves the page properties as they were. */
    method SetCurrentPage(versionOrPage: Option<string>, page: Option<string>, built: seq<VersionViewModel>,
                          files: map<(string, string), DocFile>) returns (r: Option<Exception>)
      modifies this
      ensures var vs := if old(versionsCache).Some? then old(versionsCache).value else built;
        var s := Selection(vs, files, versionOrPage, page, old(State()));
        (r.Some? <==> s.Err?) && (r.Some? ==> r.value == s.error)
        && (s.Ok? ==> State() == s.value)
        && (s.Err? ==> State() == old(State()))
      ensures versionsCache == old(versionsCache)
        || (old(versionsCache).None? && versionsCache == Some(built) && (page.None? || versionOrPage.Some?))
    {
      var vop := LowerOption(versionOrPage);
      var p := LowerOption(page);
      if p.Some? && vop.None? {
        return Some(Argument("versionOrPage"));
      }
      var versions := Versions(built);
      var d := FirstDefault(versions);
      if d < 0 {
        return Some(InvalidOperation);
      }
      var defaultVersion := versions[d];
      if p.None? {
        var file := GetFile(files, defaultVersion.tag, vop);
        if file.Some? {
          pageVersion := Some(defaultVersion);
          fallbackVersion := Some(defaultVersion);
          this.page := file;
        } else {
          var k := FirstWithTag(versions, vop);
          pageVersion := if k < 0 then None else Some(versions[k]);
          fallbackVersion := if k < 0 then Some(defaultVersion) else Some(versions[k]);
          this.page := if k < 0 then None else GetFile(files, versions[k].tag, versions[k].defaultPage);
        }
        return None;
      }
      var k := FirstWithTag(versions, vop);
      if k < 0 {
        fallbackVersion := Some(defaultVersion);
        return None;
      }
      this.page := GetFile(files, versions[k].tag, p);
      pageVersion := Some(versions[k]);
      fallbackVersion := Some(versions[k]);
      return None;
    }
  }
}
