/**
 * Where the branch importers store what they read from an archive entry:
 * a markdown file under its path without extension (an "index" file also
 * names the version's default page), an asset under its lower-cased path
 * when its extension is accepted.
 */
module DocImport {
  import opened Wrappers
  import opened Strings
  import opened Paths
  import FrontMatter
  import Versions

  /** A name whose directory part is empty or ends with '/' has the given last segment. */
  lemma {:induction false} EntryNameAfterSlash(dir: string, name: string)
    requires '/' !in name
    requires dir == [] || dir[|dir| - 1] == '/'
    ensures EntryName(dir + name) == name
  {
    var s := dir + name;
    assert forall j :: |dir| <= j < |s| ==> s[j] == name[j - |dir|];
    if dir != [] {
      assert s[|dir| - 1] == '/';
    }
    assert s[|dir|..] == name;
  }

  /** The stored path and file name of a markdown entry: root stripped, extension dropped. */
  datatype DocPath = DocPath(path: string, fileName: string)

  function DocPathOf(entryName: string, rootDirectory: Option<string>): (r: DocPath)
    ensures '/' !in r.fileName
    ensures StartsWith(EntryName(RelativeToRoot(entryName, rootDirectory)), r.fileName)
  {
    var relative := RelativeToRoot(entryName, rootDirectory);
    var fileName := FileNameWithoutExtension(relative);
    DocPath(Combine(DirectoryName(relative), fileName), fileName)
  }

  /** The stored path of a file with a name ends in that name: its last segment is the file name. */
  lemma {:induction false} DocPathNamesFile(entryName: string, rootDirectory: Option<string>)
    requires DocPathOf(entryName, rootDirectory).fileName != []
    ensures EntryName(DocPathOf(entryName, rootDirectory).path) == DocPathOf(entryName, rootDirectory).fileName
  {
    var relative := RelativeToRoot(entryName, rootDirectory);
    var fileName := FileNameWithoutExtension(relative);
    var dir := DirectoryName(relative);
    if dir == [] || dir[|dir| - 1] == '/' {
      EntryNameAfterSlash(dir, fileName);
    } else {
      assert Combine(dir, fileName) == (dir + "/") + fileName;
      EntryNameAfterSlash(dir + "/", fileName);
    }
  }

  /** What the importers store of a markdown file: the title defaults to the file name with '-' as ' '. */
  function StoredMeta(meta: FrontMatter.DocMeta, fileName: string): (r: FrontMatter.DocMeta)
    ensures r.title.Some?
    ensures meta.title.Some? ==> r == meta
    ensures meta.title.None? ==> r == meta.(title := Some(ReplaceChar(fileName, '-', " "))) && '-' !in r.title.value
  {
    if meta.title.Some? then meta else meta.(title := Some(ReplaceChar(fileName, '-', " ")))
  }

  /** The default page an entry gives its version: an "index" file names its redirect page, any other file leaves it. */
  function DefaultPageAfter(current: Option<string>, meta: FrontMatter.DocMeta, fileName: string): (r: Option<string>)
    ensures fileName == "index" ==> r == meta.redirectPage
    ensures fileName != "index" ==> r == current
  {
    if fileName == "index" then meta.redirectPage else current
  }

  /** Only a file named index, in any directory, changes the version's default page. */
  lemma {:induction false} OnlyIndexSetsDefaultPage(entryName: string, root: Option<string>, current: Option<string>,
                                                    meta: FrontMatter.DocMeta)
    requires DefaultPageAfter(current, meta, DocPathOf(entryName, root).fileName) != current
    ensures EntryName(DocPathOf(entryName, root).path) == "index"
    ensures meta.redirectPage != current
  {
    DocPathNamesFile(entryName, root);
  }

  /** The markdown branch of the import loop: the stored path and metadata, and the version's default page updated. */
  method ImportDocFile(version: Versions.DocVersion, entryName: string, rootDirectory: Option<string>, meta: FrontMatter.DocMeta)
    returns (docPath: string, stored: FrontMatter.DocMeta)
    modifies version`defaultPage
    ensures var p := DocPathOf(entryName, rootDirectory);
      docPath == p.path && stored == StoredMeta(meta, p.fileName)
      && version.defaultPage == DefaultPageAfter(old(version.defaultPage), meta, p.fileName)
  {
    var path := entryName;
    if rootDirectory.Some? && StartsWith(path, rootDirectory.value) {
      path := TrimStart(path[|rootDirectory.value|..], {'/', '\\'});
    }
    var fileName := FileNameWithoutExtension(path);
    docPath := Combine(DirectoryName(path), fileName);
    if fileName == "index" {
      version.defaultPage := meta.redirectPage;
    }
    stored := meta;
    if stored.title.None? {
      stored := stored.(title := Some(ReplaceChar(fileName, '-', " ")));
    }
  }

  /** The asset path: root stripped, then lower-cased. */
  function AssetPath(entryName: string, rootDirectory: Option<string>): (r: string)
    ensures IsLower(r) && |r| == |RelativeToRoot(entryName, rootDirectory)|
  {
    LowerIdempotent(RelativeToRoot(entryName, rootDirectory));
    Lower(RelativeToRoot(entryName, rootDirectory))
  }

  /** ImportAsset: the path an asset is stored under, or None when its extension is not accepted. */
  function StoredAsset(entryName: string, rootDirectory: Option<string>, acceptedAssets: seq<string>): (r: Option<string>)
    ensures r.Some? <==> PathExtension(AssetPath(entryName, rootDirectory)) in acceptedAssets
    ensures r.Some? ==> r.value == AssetPath(entryName, rootDirectory) && IsLower(r.value)
  {
    var path := AssetPath(entryName, rootDirectory);
    if PathExtension(path) in acceptedAssets then Some(path) else None
  }

  /** Upper and lower case in an asset name make no difference to whether and where it is stored. */
  lemma {:induction false} AssetCaseInsensitive(entryName: string, acceptedAssets: seq<string>)
    ensures StoredAsset(Lower(entryName), None, acceptedAssets) == StoredAsset(entryName, None, acceptedAssets)
  {
    LowerIdempotent(entryName);
  }

  /** A tail of a text without capitals has none either. */
  lemma LowerSuffix(s: string, suffix: string)
    requires IsLower(s) && EndsWith(s, suffix)
    ensures IsLower(suffix)
  {
    assert forall i :: 0 <= i < |suffix| ==> suffix[i] == s[|s| - |suffix| + i];
  }

  /** The extension of a path without capitals has none either. */
  lemma {:induction false} LowerPathExtension(path: string)
    requires IsLower(path)
    ensures IsLower(PathExtension(path))
  {
    var k := LastSlash(path);
    LowerSuffix(path, path[k + 1..]);
    var ext := Extension(EntryName(path));
    if ext != [] {
      LowerSuffix(EntryName(path), ext);
    }
  }

  /** An accepted extension is upper-case free: an accepted-list entry with a capital letter never matches. */
  lemma {:induction false} UpperCaseExtensionNeverAccepted(entryName: string, root: Option<string>, acceptedAssets: seq<string>)
    requires forall e :: e in acceptedAssets ==> !IsLower(e)
    ensures StoredAsset(entryName, root, acceptedAssets).None?
  {
    LowerPathExtension(AssetPath(entryName, root));
  }

  /**
   * The asset rule of NewDocsImportService.ImportAsset: the archive-relative
   * path kept as it is, stored when its extension is accepted.
   */
  function ArticleAsset(relativePath: string, acceptedAssets: seq<string>): (r: Option<string>)
    ensures r.Some? <==> PathExtension(relativePath) in acceptedAssets
    ensures r.Some? ==> r.value == relativePath
  {
    if PathExtension(relativePath) in acceptedAssets then Some(relativePath) else None
  }

  /** Without a root, a lower-case entry name is its own asset path. */
  lemma {:induction false} LowerAssetPath(path: string)
    requires IsLower(path)
    ensures AssetPath(path, None) == path
  {
    assert RelativeToRoot(path, None) == path;
    LowerOfLower(path);
  }

  /** Without a root and with a lower-case path the two asset rules agree. */
  lemma {:induction false} AssetRulesAgree(path: string, acceptedAssets: seq<string>)
    requires IsLower(path)
    ensures StoredAsset(path, None, acceptedAssets) == ArticleAsset(path, acceptedAssets)
  {
    LowerAssetPath(path);
  }
}
