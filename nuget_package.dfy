/**
 * The NuGet package walk of DocsParser.ParseFromNugetPackage: archive
 * entries are sorted into documentation files and assemblies by their place
 * in the archive and their extension, and each assembly is paired with the
 * first documentation file for its name. The parsed assembly is a type
 * parameter: the walk only stores and hands it on.
 */
module NugetPackage {
  import opened Wrappers
  import opened Strings
  import opened XmlInfo
  import opened Paths

  /** The key a package's documentation file is filed under: its folder's target framework and the documented assembly. */
  datatype AssemblyReference = AssemblyReference(targetFramework: string, assemblyName: Option<string>)

  /**
   * A package archive entry: its full name, and what ParseFromDocumentation
   * and ParseFromPE make of its contents, the latter with the simple name of
   * the parsed assembly (None when the parse result has no assembly).
   */
  datatype PackageEntry<A> = PackageEntry(
    fullName: string,
    asDocumentation: Result<XmlDocumentation, Exception>,
    asAssembly: Result<A, Exception>,
    assemblyName: Option<string>)

  /** What the package walk does with an entry. */
  datatype EntryRole = DocumentationFile(targetFramework: string) | AssemblyFile(targetFramework: string) | Ignored

  /**
   * The target framework of an entry: the second piece of its directory when
   * that splits at '/' into exactly "lib" and one more piece.
   */
  function Framework(fullName: string): (r: Option<string>)
    ensures r.Some? ==> DirectoryName(fullName) == "lib/" + r.value && '/' !in r.value
  {
    var directory := DirectoryName(fullName);
    var path := Split(directory, '/');
    if |path| != 2 || path[0] != "lib" then None
    else
      LibDirectory(directory);
      Some(path[1])
  }

  /** A directory that splits into "lib" and one more segment is "lib/" followed by that segment. */
  lemma LibDirectory(directory: string)
    requires |Split(directory, '/')| == 2 && Split(directory, '/')[0] == "lib"
    ensures directory == "lib/" + Split(directory, '/')[1] && '/' !in Split(directory, '/')[1]
  {
    var path := Split(directory, '/');
    assert path == ["lib", path[1]];
    SplitTwo(directory, '/', "lib", path[1]);
    assert "lib/" + path[1] == "lib" + ['/'] + path[1];
  }

  /** A directory "lib/" and a name without '/' is exactly what gives a framework. */
  lemma {:induction false} FrameworkOf(fullName: string, framework: string)
    requires '/' !in framework
    ensures Framework(fullName) == Some(framework) <==> DirectoryName(fullName) == "lib/" + framework
  {
    SplitTwo(DirectoryName(fullName), '/', "lib", framework);
  }

  /**
   * The classification of ParseFromNugetPackage: entries outside a folder
   * lib/<framework> are skipped; inside one, an ".xml" other than
   * "[Content_Types].xml" is documentation, a ".dll" an assembly, by the
   * lower-cased extension.
   */
  function Role(fullName: string): EntryRole
  {
    var name := EntryName(fullName);
    var extension := Lower(Extension(name));
    var framework := Framework(fullName);
    if framework.None? then Ignored
    else if extension == ".xml" && name != "[Content_Types].xml" then DocumentationFile(framework.value)
    else if extension == ".dll" then AssemblyFile(framework.value)
    else Ignored
  }

  /**
   * An entry outside lib/<framework> is ignored; inside, it is documentation
   * exactly for a lower-cased ".xml" extension on a name other than
   * "[Content_Types].xml", an assembly exactly for ".dll", and ignored
   * otherwise.
   */
  lemma {:induction false} RoleOfEntry(fullName: string)
    ensures Role(fullName) != Ignored ==> Framework(fullName) == Some(Role(fullName).targetFramework)
    ensures Framework(fullName).Some? ==>
      (Role(fullName).DocumentationFile? <==> Lower(Extension(EntryName(fullName))) == ".xml" && EntryName(fullName) != "[Content_Types].xml")
    ensures Framework(fullName).Some? ==>
      (Role(fullName).AssemblyFile? <==> Lower(Extension(EntryName(fullName))) == ".dll")
  {
  }

  /** The two dictionaries of NugetDocumentationSet; order lists the assembly names as the dictionary enumerates them. */
  datatype NugetSet<A> = NugetSet(
    documentation: seq<(AssemblyReference, XmlDocumentation)>,
    assemblies: map<string, A>,
    order: seq<string>)

  /** The assembly names are listed once each, and they are the dictionary's keys. */
  ghost predicate WellOrdered<A>(n: NugetSet<A>)
  {
    (forall i, j :: 0 <= i < j < |n.order| ==> n.order[i] != n.order[j])
    && (forall k :: k in n.assemblies <==> k in n.order)
  }

  /**
   * One pass of the entry loop. A documentation file is added under its
   * framework and assembly name; an assembly is stored under its simple
   * name, replacing an earlier one in its place; a parse failure or an
   * assembly without a name is an exception.
   */
  function Step<A>(acc: NugetSet<A>, e: PackageEntry<A>, role: EntryRole): (r: Result<NugetSet<A>, Exception>)
  {
    match role
    case Ignored => Ok(acc)
    case DocumentationFile(framework) =>
      if e.asDocumentation.Err? then Err(e.asDocumentation.error)
      else
        var doc := e.asDocumentation.value;
        Ok(acc.(documentation := acc.documentation + [(AssemblyReference(framework, doc.assemblyName), doc)]))
    case AssemblyFile(_) =>
      if e.asAssembly.Err? then Err(e.asAssembly.error)
      else if e.assemblyName.None? then Err(NullReference)
      else
        var name := e.assemblyName.value;
        Ok(acc.(assemblies := acc.assemblies[name := e.asAssembly.value],
                order := if name in acc.assemblies then acc.order else acc.order + [name]))
  }

  /** The role of each entry, in archive order. */
  function Roles<A>(entries: seq<PackageEntry<A>>): (r: seq<EntryRole>)
    ensures |r| == |entries|
  {
    seq(|entries|, i requires 0 <= i < |entries| => Role(entries[i].fullName))
  }

  /** The entry loop over entries already given their roles, up to the first exception. */
  function Walk<A>(entries: seq<PackageEntry<A>>, roles: seq<EntryRole>): (r: Result<NugetSet<A>, Exception>)
    requires |roles| == |entries|
  {
    if entries == [] then Ok(NugetSet([], map[], []))
    else
      var p := Walk(entries[..|entries| - 1], roles[..|roles| - 1]);
      if p.Err? then p else Step(p.value, entries[|entries| - 1], roles[|roles| - 1])
  }

  /** The entry loop of ParseFromNugetPackage, each entry classified by Role. */
  function Collect<A>(entries: seq<PackageEntry<A>>): (r: Result<NugetSet<A>, Exception>)
  {
    Walk(entries, Roles(entries))
  }

  /** The documentation entries, in archive order, each under its key. */
  function DocumentationFiles<A>(entries: seq<PackageEntry<A>>, roles: seq<EntryRole>): seq<(AssemblyReference, XmlDocumentation)>
    requires |roles| == |entries|
  {
    if entries == [] then []
    else
      var e := entries[|entries| - 1];
      var role := roles[|roles| - 1];
      var rest := DocumentationFiles(entries[..|entries| - 1], roles[..|roles| - 1]);
      if role.DocumentationFile? && e.asDocumentation.Ok?
      then rest + [(AssemblyReference(role.targetFramework, e.asDocumentation.value.assemblyName), e.asDocumentation.value)]
      else rest
  }

  /** An entry with this role that stores an assembly under a name. */
  predicate StoresAssembly<A>(e: PackageEntry<A>, role: EntryRole, name: string)
  {
    role.AssemblyFile? && e.asAssembly.Ok? && e.assemblyName == Some(name)
  }

  /** A step keeps the assembly names listed once each, and listed exactly when they are keys. */
  lemma {:induction false} StepWellOrdered<A>(acc: NugetSet<A>, e: PackageEntry<A>, role: EntryRole)
    requires WellOrdered(acc) && Step(acc, e, role).Ok?
    ensures WellOrdered(Step(acc, e, role).value)
  {
    var r := Step(acc, e, role).value;
    if role.AssemblyFile? {
      var name := e.assemblyName.value;
      assert r.assemblies == acc.assemblies[name := e.asAssembly.value];
      if name !in acc.assemblies {
        assert r.order == acc.order + [name];
        assert name !in acc.order;
      } else {
        assert r.order == acc.order;
      }
    } else {
      assert r == acc || (r.assemblies == acc.assemblies && r.order == acc.order);
    }
  }

  /** The walk lists every assembly name once, in the order the names were first stored. */
  lemma {:induction false} WalkWellOrdered<A>(entries: seq<PackageEntry<A>>, roles: seq<EntryRole>)
    requires |roles| == |entries| && Walk(entries, roles).Ok?
    ensures WellOrdered(Walk(entries, roles).value)
  {
    if entries != [] {
      var init, initRoles := entries[..|entries| - 1], roles[..|roles| - 1];
      WalkWellOrdered(init, initRoles);
      StepWellOrdered(Walk(init, initRoles).value, entries[|entries| - 1], roles[|roles| - 1]);
    }
  }

  /** When the walk succeeds, its documentation list holds all documentation entries, in archive order. */
  lemma {:induction false} WalkDocumentation<A>(entries: seq<PackageEntry<A>>, roles: seq<EntryRole>)
    requires |roles| == |entries|
    ensures Walk(entries, roles).Ok? ==> Walk(entries, roles).value.documentation == DocumentationFiles(entries, roles)
  {
    if entries != [] {
      WalkDocumentation(entries[..|entries| - 1], roles[..|roles| - 1]);
    }
  }

  /** What one step does to the assembly dictionary. */
  lemma {:induction false} StepAssemblies<A>(acc: NugetSet<A>, e: PackageEntry<A>, role: EntryRole)
    requires Step(acc, e, role).Ok?
    ensures role.AssemblyFile? ==>
      (e.asAssembly.Ok? && e.assemblyName.Some?
       && Step(acc, e, role).value.assemblies == acc.assemblies[e.assemblyName.value := e.asAssembly.value])
    ensures !role.AssemblyFile? ==> Step(acc, e, role).value.assemblies == acc.assemblies
  {
  }

  /** When the walk succeeds, every assembly entry parsed, had a name, and that name is a key. */
  lemma {:induction false} WalkAssemblyKeys<A>(entries: seq<PackageEntry<A>>, roles: seq<EntryRole>, i: nat)
    requires |roles| == |entries| && Walk(entries, roles).Ok? && i < |entries| && roles[i].AssemblyFile?
    ensures entries[i].asAssembly.Ok? && entries[i].assemblyName.Some?
    ensures entries[i].assemblyName.value in Walk(entries, roles).value.assemblies
    decreases |entries|
  {
    var init, initRoles := entries[..|entries| - 1], roles[..|roles| - 1];
    var p := Walk(init, initRoles);
    StepAssemblies(p.value, entries[|entries| - 1], roles[|roles| - 1]);
    if i < |init| {
      assert init[i] == entries[i] && initRoles[i] == roles[i];
      WalkAssemblyKeys(init, initRoles, i);
    }
  }

  /** When the walk succeeds, each key holds the assembly of the last entry stored under it. */
  lemma {:induction false} WalkLastAssembly<A>(entries: seq<PackageEntry<A>>, roles: seq<EntryRole>, name: string)
    requires |roles| == |entries| && Walk(entries, roles).Ok? && name in Walk(entries, roles).value.assemblies
    ensures exists i :: (0 <= i < |entries| && StoresAssembly(entries[i], roles[i], name)
      && Walk(entries, roles).value.assemblies[name] == entries[i].asAssembly.value
      && forall j :: i < j < |entries| ==> !StoresAssembly(entries[j], roles[j], name))
  {
    assert entries != [];
    var init, initRoles := entries[..|entries| - 1], roles[..|roles| - 1];
    var e, role := entries[|entries| - 1], roles[|roles| - 1];
    var p := Walk(init, initRoles);
    StepAssemblies(p.value, e, role);
    var c := Walk(entries, roles).value;
    if StoresAssembly(e, role, name) {
      assert c.assemblies[name] == e.asAssembly.value;
    } else {
      assert name in p.value.assemblies && c.assemblies[name] == p.value.assemblies[name];
      WalkLastAssembly(init, initRoles, name);
      var i :| (0 <= i < |init| && StoresAssembly(init[i], initRoles[i], name)
        && p.value.assemblies[name] == init[i].asAssembly.value
        && forall j :: i < j < |init| ==> !StoresAssembly(init[j], initRoles[j], name));
      assert entries[i] == init[i] && roles[i] == initRoles[i];
      forall j | i < j < |entries| ensures !StoresAssembly(entries[j], roles[j], name) {
        if j < |init| {
          assert entries[j] == init[j] && roles[j] == initRoles[j];
        }
      }
    }
  }

  /** Once the walk fails on a prefix, it fails with the same exception on the whole. */
  lemma {:induction false} WalkStops<A>(entries: seq<PackageEntry<A>>, roles: seq<EntryRole>, n: nat)
    requires |roles| == |entries| && n <= |entries| && Walk(entries[..n], roles[..n]).Err?
    ensures Walk(entries, roles) == Walk(entries[..n], roles[..n])
    decreases |entries| - n
  {
    if n < |entries| {
      assert entries[..n + 1][..n] == entries[..n] && roles[..n + 1][..n] == roles[..n];
      WalkStops(entries, roles, n + 1);
    } else {
      assert entries[..n] == entries && roles[..n] == roles;
    }
  }

  /** FirstOrDefault over the documentation files: the first whose key names the assembly. */
  function FirstDocumentationFor(docs: seq<(AssemblyReference, XmlDocumentation)>, name: string): (r: Option<XmlDocumentation>)
    ensures r.Some? <==> exists i :: 0 <= i < |docs| && docs[i].0.assemblyName == Some(name)
    ensures r.Some? ==> exists i :: (0 <= i < |docs| && docs[i].0.assemblyName == Some(name) && docs[i].1 == r.value
      && forall j :: 0 <= j < i ==> docs[j].0.assemblyName != Some(name))
  {
    if docs == [] then None
    else if docs[0].0.assemblyName == Some(name) then Some(docs[0].1)
    else
      var rest := FirstDocumentationFor(docs[1..], name);
      assert forall i :: 1 <= i < |docs| ==> docs[i] == docs[1..][i - 1];
      assert rest.Some? ==> exists i :: (0 <= i < |docs| && docs[i].0.assemblyName == Some(name) && docs[i].1 == rest.value
        && forall j :: 0 <= j < i ==> docs[j].0.assemblyName != Some(name)) by {
        if rest.Some? {
          var k :| (0 <= k < |docs[1..]| && docs[1..][k].0.assemblyName == Some(name) && docs[1..][k].1 == rest.value
            && forall j :: 0 <= j < k ==> docs[1..][j].0.assemblyName != Some(name));
          assert forall j :: 0 <= j < k + 1 ==> docs[j].0.assemblyName != Some(name);
        }
      }
      rest
  }

  /** The pairing loop: each assembly, in dictionary order, with the first documentation file for its name, if any. */
  function Pairs<A>(n: NugetSet<A>): (r: seq<(A, XmlDocumentation)>)
    requires WellOrdered(n)
    ensures |r| <= |n.order|
    ensures forall i :: 0 <= i < |r| ==> exists k :: (0 <= k < |n.order| && r[i].0 == n.assemblies[n.order[k]]
      && FirstDocumentationFor(n.documentation, n.order[k]) == Some(r[i].1))
  {
    PairsFrom(n, 0)
  }

  function PairsFrom<A>(n: NugetSet<A>, k: nat): (r: seq<(A, XmlDocumentation)>)
    requires WellOrdered(n) && k <= |n.order|
    ensures |r| <= |n.order| - k
    ensures forall i :: 0 <= i < |r| ==> exists m :: (k <= m < |n.order| && r[i].0 == n.assemblies[n.order[m]]
      && FirstDocumentationFor(n.documentation, n.order[m]) == Some(r[i].1))
    decreases |n.order| - k
  {
    if k == |n.order| then []
    else
      var name := n.order[k];
      var rest := PairsFrom(n, k + 1);
      var doc := FirstDocumentationFor(n.documentation, name);
      if doc.Some? then [(n.assemblies[name], doc.value)] + rest else rest
  }

  /** The entry loop itself, stopping at the first exception. */
  method WalkEntries<A>(entries: seq<PackageEntry<A>>, roles: seq<EntryRole>) returns (r: Result<NugetSet<A>, Exception>)
    requires |roles| == |entries|
    ensures r == Walk(entries, roles)
  {
    var acc := NugetSet([], map[], []);
    var i := 0;
    while i < |entries|
      invariant 0 <= i <= |entries|
      invariant Walk(entries[..i], roles[..i]) == Ok(acc)
    {
      assert entries[..i + 1][..i] == entries[..i] && roles[..i + 1][..i] == roles[..i];
      var next := Step(acc, entries[i], roles[i]);
      if next.Err? {
        WalkStops(entries, roles, i + 1);
        return next;
      }
      acc := next.value;
      i := i + 1;
    }
    assert entries[..i] == entries && roles[..i] == roles;
    r := Ok(acc);
  }

  /**
   * ParseFromNugetPackage over the entries of the archive: the two
   * dictionaries, and the assemblies paired with the documentation that
   * ApplyXmlDocumentation is then called with, in that order.
   */
  method ParseFromNugetPackage<A>(entries: seq<PackageEntry<A>>) returns (r: Result<(NugetSet<A>, seq<(A, XmlDocumentation)>), Exception>)
    ensures Collect(entries).Err? ==> r == Err(Collect(entries).error)
    ensures Collect(entries).Ok? ==>
      (WellOrdered(Collect(entries).value) && r == Ok((Collect(entries).value, Pairs(Collect(entries).value))))
  {
    var roles := Roles(entries);
    var walked := WalkEntries(entries, roles);
    if walked.Err? {
      return Err(walked.error);
    }
    WalkWellOrdered(entries, roles);
    r := Ok((walked.value, Pairs(walked.value)));
  }

  /** When the walk succeeds, every entry Role calls an assembly parsed, had a name, and that name is a key. */
  lemma {:induction false} CollectAssemblyKeys<A>(entries: seq<PackageEntry<A>>, i: nat)
    requires Collect(entries).Ok? && i < |entries| && Role(entries[i].fullName).AssemblyFile?
    ensures entries[i].asAssembly.Ok? && entries[i].assemblyName.Some?
    ensures entries[i].assemblyName.value in Collect(entries).value.assemblies
  {
    WalkAssemblyKeys(entries, Roles(entries), i);
  }
}
