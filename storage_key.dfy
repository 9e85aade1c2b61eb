/**
 * Storage keys of the documentation site (StorageKey) and the branch-name
 * escaping the importers share: a branch or version name becomes one path
 * segment by replacing '/' with "---" and '\' with "-----".
 */
module StorageKeys {
  import opened Wrappers
  import opened Strings

  /** BranchNameToPathString of the importers: '/' becomes "---", then '\' becomes "-----"; null stays null. */
  function BranchNameToPathString(branch: Option<string>): (r: Option<string>)
    ensures r.None? <==> branch.None?
    ensures r.Some? ==> '/' !in r.value && '\\' !in r.value
    ensures r.Some? && '/' !in branch.value && '\\' !in branch.value ==> r == branch
  {
    match branch
    case None => None
    case Some(b) => Some(ReplaceChar(ReplaceChar(b, '/', "---"), '\\', "-----"))
  }

  /** Two branches can share an escaped name: a '/' and the text "---" escape alike, and so do '\' and "/--". */
  lemma {:induction false} EscapeCollides()
    ensures BranchNameToPathString(Some("a/b")) == BranchNameToPathString(Some("a---b"))
    ensures BranchNameToPathString(Some("\\")) == BranchNameToPathString(Some("/--"))
  {
    SlashEscape();
    assert '/' !in "a---b" && '\\' !in "a---b";
    BackslashEscape();
  }

  /** The '/' of "a/b" becomes "---". */
  lemma {:induction false} SlashEscape()
    ensures BranchNameToPathString(Some("a/b")) == Some("a---b")
  {
    var tail := ReplaceChar("/b", '/', "---");
    assert tail == "---" + ReplaceChar("b", '/', "---") by {
      assert "/b"[1..] == "b";
    }
    assert ReplaceChar("b", '/', "---") == "b";
    assert ReplaceChar("a/b", '/', "---") == "a" + tail by {
      assert "a/b"[1..] == "/b";
    }
    assert "a" + ("---" + "b") == "a---b";
    assert '\\' !in "a---b";
  }

  /** A lone '\' and the text "/--" both become "-----". */
  lemma {:induction false} BackslashEscape()
    ensures BranchNameToPathString(Some("\\")) == Some("-----")
    ensures BranchNameToPathString(Some("/--")) == Some("-----")
  {
    assert ReplaceChar("\\", '\\', "-----") == "-----" by {
      assert "\\"[1..] == [];
    }
    assert ReplaceChar("/--", '/', "---") == "-----" by {
      assert '/' !in "--";
      assert "/--"[1..] == "--";
    }
  }

  /** A key of the storage service: the relative file path it names. */
  datatype StorageKey = StorageKey(keyPath: string)

  /** The private constructor: a null path throws. */
  function NewKey(keyPath: Option<string>): (r: Result<StorageKey, Exception>)
    ensures keyPath.None? <==> r.Err?
    ensures r.Err? ==> r.error == ArgumentNull("keyPath")
    ensures r.Ok? ==> r.value.keyPath == keyPath.value
  {
    if keyPath.None? then Err(ArgumentNull("keyPath")) else Ok(StorageKey(keyPath.value))
  }

  /** StorageKey's own BranchNameToPathString: the importers' escape, then lower-cased. */
  function EscapeVersion(version: string): (r: string)
    ensures '/' !in r && '\\' !in r && IsLower(r)
  {
    var escaped := BranchNameToPathString(Some(version)).value;
    var r := Lower(escaped);
    LowerIdempotent(escaped);
    assert forall i :: 0 <= i < |r| ==> r[i] == LowerChar(escaped[i]);
    r
  }

  /** The directory of a version's keys. */
  function VersionDirectory(version: string): string
  {
    "docs/" + EscapeVersion(version) + "/"
  }

  /** The null checks of the factories, in argument order. */
  function CheckArguments(version: Option<string>, name: Option<string>): (r: Option<Exception>)
    ensures r.None? <==> version.Some? && name.Some?
    ensures version.None? ==> r == Some(ArgumentNull("version"))
    ensures version.Some? && name.None? ==> r == Some(ArgumentNull("name"))
  {
    if version.None? then Some(ArgumentNull("version"))
    else if name.None? then Some(ArgumentNull("name"))
    else None
  }

  /** ForDocumentationData: "docs/", the escaped version, "/", the name and ".json". */
  function ForDocumentationData(version: Option<string>, name: Option<string>): (r: Result<StorageKey, Exception>)
    ensures r.Err? <==> CheckArguments(version, name).Some?
    ensures r.Err? ==> r.error == CheckArguments(version, name).value
    ensures r.Ok? ==>
      (StartsWith(r.value.keyPath, VersionDirectory(version.value))
       && r.value.keyPath[|VersionDirectory(version.value)|..] == name.value + ".json")
  {
    var failure := CheckArguments(version, name);
    if failure.Some? then Err(failure.value)
    else NewKey(Some("docs/" + EscapeVersion(version.value) + "/" + name.value + ".json"))
  }

  /** ForDocumentationAsset: the same directory and the bare name. */
  function ForDocumentationAsset(version: Option<string>, name: Option<string>): (r: Result<StorageKey, Exception>)
    ensures r.Err? <==> CheckArguments(version, name).Some?
    ensures r.Err? ==> r.error == CheckArguments(version, name).value
    ensures r.Ok? ==>
      (StartsWith(r.value.keyPath, VersionDirectory(version.value))
       && r.value.keyPath[|VersionDirectory(version.value)|..] == name.value)
  {
    var failure := CheckArguments(version, name);
    if failure.Some? then Err(failure.value)
    else NewKey(Some("docs/" + EscapeVersion(version.value) + "/" + name.value))
  }

  /** ForDocumentationAssetMeta: the asset key with ".asset" added. */
  function ForDocumentationAssetMeta(version: Option<string>, name: Option<string>): (r: Result<StorageKey, Exception>)
    ensures r.Err? <==> CheckArguments(version, name).Some?
    ensures r.Err? ==> r.error == CheckArguments(version, name).value
    ensures r.Ok? ==> r.value.keyPath == ForDocumentationAsset(version, name).value.keyPath + ".asset"
  {
    var failure := CheckArguments(version, name);
    if failure.Some? then Err(failure.value)
    else NewKey(Some("docs/" + EscapeVersion(version.value) + "/" + name.value + ".asset"))
  }

  /** "docs/" + segment + "/" + name + suffix determines a segment without '/' and the name. */
  lemma {:induction false} KeyPathInjective(e1: string, n1: string, e2: string, n2: string, suffix: string)
    requires '/' !in e1 && '/' !in e2
    requires "docs/" + e1 + "/" + n1 + suffix == "docs/" + e2 + "/" + n2 + suffix
    ensures e1 == e2 && n1 == n2
  {
    var k := "docs/" + e1 + "/" + n1 + suffix;
    var t := k[5..];
    assert t == e1 + ("/" + n1 + suffix);
    assert t == e2 + ("/" + n2 + suffix);
    IndexOfAppend(e1, "/" + n1 + suffix, '/');
    IndexOfAppend(e2, "/" + n2 + suffix, '/');
    assert ("/" + n1 + suffix)[0] == '/' && ("/" + n2 + suffix)[0] == '/';
    assert |e1| == |e2|;
    assert e1 == t[..|e1|] && e2 == t[..|e2|];
    assert n1 == k[6 + |e1|..|k| - |suffix|];
  }

  /** A data key determines its escaped version and its name. */
  lemma {:induction false} DataKeyInjective(v1: string, n1: string, v2: string, n2: string)
    requires ForDocumentationData(Some(v1), Some(n1)) == ForDocumentationData(Some(v2), Some(n2))
    ensures EscapeVersion(v1) == EscapeVersion(v2) && n1 == n2
  {
    KeyPathInjective(EscapeVersion(v1), n1, EscapeVersion(v2), n2, ".json");
  }

  /**
   * ForDocumentationVersion as written: "docs/" and the version, neither
   * escaped nor lower-cased. DeleteBranch deletes this directory.
   */
  function ForDocumentationVersion(version: Option<string>): (r: Result<StorageKey, Exception>)
    ensures r.Err? <==> version.None?
    ensures r.Err? ==> r.error == ArgumentNull("version")
    ensures r.Ok? ==> StartsWith(r.value.keyPath, "docs/") && r.value.keyPath[5..] == version.value
  {
    if version.None? then Err(ArgumentNull("version")) else NewKey(Some("docs/" + version.value))
  }

  /** For a version starting with a capital, such as "Main", the deleted directory does not hold its data keys. */
  lemma {:induction false} VersionKeyMissesDataKeys(version: string, name: string)
    requires version != [] && 'A' <= version[0] <= 'Z'
    ensures var data := ForDocumentationData(Some(version), Some(name)).value.keyPath;
      var directory := ForDocumentationVersion(Some(version)).value.keyPath;
      !StartsWith(data, directory + "/")
  {
    var e := EscapeVersion(version);
    var data := ForDocumentationData(Some(version), Some(name)).value.keyPath;
    assert data == "docs/" + e + "/" + name + ".json";
    assert data[5] == if e == [] then '/' else e[0];
    assert ("docs/" + version + "/")[5] == version[0];
  }

  /** The version key with the escape the other keys use. */
  function ForEscapedDocumentationVersion(version: Option<string>): (r: Result<StorageKey, Exception>)
    ensures r.Err? <==> version.None?
    ensures r.Err? ==> r.error == ArgumentNull("version")
    ensures r.Ok? ==> r.value.keyPath + "/" == VersionDirectory(version.value)
  {
    if version.None? then Err(ArgumentNull("version")) else NewKey(Some("docs/" + EscapeVersion(version.value)))
  }

  /** Every key of a version lies in the directory of the escaped version key. */
  lemma {:induction false} EscapedVersionKeyHoldsKeys(version: string, name: string)
    ensures var directory := ForEscapedDocumentationVersion(Some(version)).value.keyPath + "/";
      StartsWith(ForDocumentationData(Some(version), Some(name)).value.keyPath, directory)
      && StartsWith(ForDocumentationAsset(Some(version), Some(name)).value.keyPath, directory)
      && StartsWith(ForDocumentationAssetMeta(Some(version), Some(name)).value.keyPath, directory)
  {
  }

  /** For a lower-case version without separators the two version keys agree. */
  lemma {:induction false} VersionKeysAgree(version: string)
    requires '/' !in version && '\\' !in version && IsLower(version)
    ensures ForDocumentationVersion(Some(version)) == ForEscapedDocumentationVersion(Some(version))
  {
    assert Lower(version) == version;
  }
}
