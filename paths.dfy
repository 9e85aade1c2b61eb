/**
 * The System.IO.Path operations the importers use, with '/' as the only
 * directory separator.
 */
module Paths {
  import opened Wrappers
  import opened Strings

  /** Where the last '/' of a full name is, or -1. */
  function LastSlash(fullName: string): (r: int)
    ensures -1 <= r < |fullName|
    ensures r >= 0 ==> fullName[r] == '/'
    ensures forall j :: r < j < |fullName| ==> fullName[j] != '/'
  {
    if fullName == [] then -1
    else
      LastIndexOfLast(fullName, '/', |fullName| - 1);
      LastIndexOf(fullName, '/', |fullName| - 1)
  }

  /** ZipArchiveEntry.Name: the part of the full name after its last '/'. */
  function EntryName(fullName: string): (r: string)
    ensures '/' !in r
  {
    var k := LastSlash(fullName);
    fullName[k + 1..]
  }

  /** Path.GetDirectoryName: the part of the full name before its last '/', empty when it has none. */
  function DirectoryName(fullName: string): (r: string)
  {
    var k := LastSlash(fullName);
    if k < 0 then "" else fullName[..k]
  }

  /** A full name is its directory, a '/' when it has one, and its entry name. */
  lemma {:induction false} FullNameSplits(fullName: string)
    ensures '/' in fullName ==> fullName == DirectoryName(fullName) + "/" + EntryName(fullName)
    ensures '/' !in fullName ==> DirectoryName(fullName) == "" && EntryName(fullName) == fullName
  {
    var k := LastSlash(fullName);
    if '/' in fullName {
      var j :| 0 <= j < |fullName| && fullName[j] == '/';
      assert k >= j;
      assert fullName == fullName[..k] + [fullName[k]] + fullName[k + 1..];
    }
  }

  /**
   * Path.GetExtension of a file name: from its last '.' on, or empty when it
   * has no '.' or ends with it.
   */
  function Extension(name: string): (r: string)
    ensures r == [] || (r[0] == '.' && |r| >= 2 && EndsWith(name, r) && '.' !in r[1..])
  {
    if name == [] then ""
    else
      var k := LastIndexOf(name, '.', |name| - 1);
      LastIndexOfLast(name, '.', |name| - 1);
      if k < 0 || k == |name| - 1 then ""
      else
        assert forall j :: 1 <= j < |name[k..]| ==> name[k..][j] == name[k + j];
        name[k..]
  }

  /** Path.GetExtension of a path: the extension of its last segment. */
  function PathExtension(path: string): (r: string)
    ensures r == [] || (r[0] == '.' && '.' !in r[1..] && '/' !in r)
  {
    Extension(EntryName(path))
  }

  /** Path.GetFileNameWithoutExtension: the last segment up to its last '.'. */
  function FileNameWithoutExtension(path: string): (r: string)
    ensures '/' !in r
    ensures StartsWith(EntryName(path), r)
  {
    var name := EntryName(path);
    if name == [] then name
    else
      var k := LastIndexOf(name, '.', |name| - 1);
      if k < 0 then name else name[..k]
  }

  /** Path.Combine of two paths: the second alone when the first is empty or the second rooted, else joined by one '/'. */
  function Combine(first: string, second: string): (r: string)
    ensures first == [] ==> r == second
    ensures first != [] && second != [] && second[0] != '/' && first[|first| - 1] != '/' ==> r == first + "/" + second
  {
    if second == [] then first
    else if first == [] || second[0] == '/' then second
    else if first[|first| - 1] == '/' then first + second
    else first + "/" + second
  }

  /** String.TrimStart over a set of characters. */
  function TrimStart(s: string, chars: set<char>): (r: string)
    ensures |r| <= |s| && s[|s| - |r|..] == r
    ensures r == [] || r[0] !in chars
    ensures forall i :: 0 <= i < |s| - |r| ==> s[i] in chars
  {
    if s == [] || s[0] !in chars then s
    else
      var rest := TrimStart(s[1..], chars);
      assert forall i :: 1 <= i < |s| ==> s[i] == s[1..][i - 1];
      rest
  }

  /** The entry path relative to the archive's root directory, when it starts with that root. */
  function RelativeToRoot(path: string, root: Option<string>): (r: string)
    ensures root.None? || !StartsWith(path, root.value) ==> r == path
    ensures root.Some? && StartsWith(path, root.value) ==>
      (r == TrimStart(path[|root.value|..], {'/', '\\'}) && (r == [] || (r[0] != '/' && r[0] != '\\')))
  {
    if root.Some? && StartsWith(path, root.value) then TrimStart(path[|root.value|..], {'/', '\\'}) else path
  }
}
