# DocPluck and the SampSharp documentation site, modelled in Dafny

DocPluck reads a .NET class library twice over. It reads the assembly's
ECMA-335 metadata (type definitions, methods, fields, properties, events,
parameters, custom attributes, constants and signatures) into a reflection-like
object graph of `Docs*Info` nodes. It reads the compiler's XML documentation
file (`<member name="T:...">` elements with summary, remarks, param, exception,
seealso and inheritdoc tags) into documentation records. It joins the two by
documentation id (`T:Ns.Type`, `M:Ns.Type.Method(System.Int32)`, ...). The
SampSharp website imports markdown articles and assets from the branches of a
documentation repository. It reads their front matter, builds the navigation
menu and storage keys, renders anchored headings, and picks a version and page
for each request.

This project models that core in Dafny and proves what it promises:

- The heap graph the PE parser builds is modelled as Dafny classes.
  - The type, method, field, property, event and parameter nodes have mutable fields, filled in by methods with `modifies` frames.
  - A registry class caches handle lookups, as the info provider's dictionaries do.
  - The metadata tables are immutable values.
- The XML documentation parser and the relation pass are functions over an XML tree, and loop methods are proved against them.
- Code references (`T:`, `M:`, `P:`, `F:`, `E:`, `N:`) and documentation ids are functions.
  - Their round trips and injectivity are proved as lemmas.
- The attribute-flag tests and accessibility levels are functions over attribute words.
  - The accessibility order is a lemma.
- The site helpers are functions, with methods for their loops:
  - front matter, article import, paths of imported files and assets;
  - heading anchors, storage keys;
  - the menu tree builder (a class);
  - the version model and the controller's page selection (a class).

Each module is one file: `code_reference`, `doc_text`, `xml`, `xml_doc_parser`,
`xml_info`, `member_relations`, `xml_names`, `docs_parser`, `nuget_package`,
`info_provider`, `signature_types`, `metadata`, `pe_parser`, `type_members`,
`accessors`, `constants`, `reflection`, `flags`, `accessibility`,
`type_debug_printer`, `front_matter`, `articles`, `doc_import`, `heading`,
`storage_key`, `menu_tree` and `versions`. The shared helpers are `wrappers`
(Option, Result, the exceptions the code throws), `strings` (the .NET string
operations the code calls) and `paths` (System.IO.Path and zip entry names).

## Model

| member | source | states |
|---|---|---|
| CodeReferences.KindOf | src/DocPluck/CodeReference.cs:67-77 | the letters N, T, F, M, E, P and ! select the seven kinds and are exactly what KindChar prints back; any other letter has no kind |
| CodeReferences.SearchStart | src/DocPluck/CodeReference.cs:84-86 | the backward search for dots starts just before the first '(' (at the last index when there is none) |
| CodeReferences.SplitType | src/DocPluck/CodeReference.cs:86-91 | a type name splits at the last dot before the first '('; with no such dot the Substring call throws |
| CodeReferences.SplitMember | src/DocPluck/CodeReference.cs:94-97 | a member name splits at the last two dots before the first '(' into namespace, type and member |
| CodeReferences.SplitTypeParts | src/DocPluck/CodeReference.cs:86-91 | a successful type split joins back with one dot, the namespace holds no '(' and the type holds no dot before its first '(' |
| CodeReferences.SplitMemberParts | src/DocPluck/CodeReference.cs:94-97 | a successful member split joins back with two dots; only the member part keeps dots, inside its parameter list |
| CodeReferences.SplitTypeSucceeds | src/DocPluck/CodeReference.cs:86-91 | a type cref parses exactly when a dot comes before the first '(' |
| CodeReferences.SplitMemberSucceeds | src/DocPluck/CodeReference.cs:86-97 | a member cref parses exactly when at least two dots come before the first '(' |
| CodeReferences.ParseName | src/DocPluck/CodeReference.cs:79-100 | the kind is kept; namespace and error crefs keep the whole remainder as namespace |
| CodeReferences.Parse | src/DocPluck/CodeReference.cs:57-101 | null throws ArgumentNullException; a short input, a missing ':' or an unknown kind letter throws ArgumentException; N: and !: keep the remainder with no type and member name |
| CodeReferences.ParseOfPrefixed | src/DocPluck/CodeReference.cs:57-79 | Parse checks the kind letter and colon and hands the rest on unchanged |
| CodeReferences.FormatPrefix | src/DocPluck/CodeReference.cs:103-112 | ToString prints the kind letter, ':', then the namespace, "ns.type" or "ns.type.member" by kind, null parts as empty text |
| CodeReferences.Format | src/DocPluck/CodeReference.cs:103-112 | ToString starts with the kind letter and ':'; namespace and error crefs print the bare namespace, the others the namespace followed by a dot; Parse inverts it (FormatThenParse) |
| CodeReferences.ParseNameParts | src/DocPluck/CodeReference.cs:79-112 | what the name parser accepts, ToString prints back after the prefix, and a split cref is well formed |
| CodeReferences.ParseThenFormat | src/DocPluck/CodeReference.cs:57-112 | round trip: ToString(Parse(s)) == s for every s that Parse accepts |
| CodeReferences.SplitTypeOfFormat | src/DocPluck/CodeReference.cs:86-91 | a type cref splits back at the dot ToString placed |
| CodeReferences.SplitMemberOfFormat | src/DocPluck/CodeReference.cs:94-97 | a member cref splits back at the two dots ToString placed, even when its parameter list holds dots |
| CodeReferences.FormatThenParse | src/DocPluck/CodeReference.cs:57-112 | round trip: Parse(ToString(c)) == c for every well-formed cref |
| DocTexts.Make | src/DocPluck/XmlDocElement/XmlDocText.cs:23-26 | a null element array throws ArgumentNullException; otherwise the text holds exactly the given elements |
| DocTexts.Concat | src/DocPluck/XmlDocElement/XmlDocText.cs:36-46 | Concat(null) is the receiver; otherwise the lengths add up, with a's elements in order and then b's |
| DocTexts.Plus | src/DocPluck/XmlDocElement/XmlDocText.cs:48-55 | null + b == b, a + null == a, the result is null only for null + null, and its elements are the operands' in order |
| DocTexts.PlusAssociative | src/DocPluck/XmlDocElement/XmlDocText.cs:36-55 | (a + b) + c == a + (b + c), null operands included |
| DocTexts.ShowAllAppend | src/DocPluck/XmlDocElement/XmlDocText.cs:31-34 | printing two element lists back to back prints each in turn |
| DocTexts.ToString | src/DocPluck/XmlDocElement/XmlDocText.cs:31-34 | an empty text prints as "", a one-element text as that element, a longer one as its first element and a space followed by the rest |
| DocTexts.ToStringConcat | src/DocPluck/XmlDocElement/XmlDocText.cs:31-46 | ToString of a concatenation is both texts joined by one space |
| DocsXmlParser.ParseDocListType | src/DocPluck/Parser/DocsXmlParser.cs:31-39 | "number" gives Number, "table" gives Table, anything else (missing included) gives Bullet |
| DocsXmlParser.ParseCref | src/DocPluck/Parser/DocsXmlParser.cs:96-101 | a blank or missing cref gives null; otherwise CodeReference.Parse of the trimmed value, whose errors pass through, and it prints back as that trimmed value |
| DocsXmlParser.TextOf | src/DocPluck/Parser/DocsXmlParser.cs:64-94 | the text has exactly one slot per child node |
| DocsXmlParser.TextOfOpt | src/DocPluck/Parser/DocsXmlParser.cs:66-67 | ParseText(null) is null, and a present node never gives a null text |
| DocsXmlParser.Slots | src/DocPluck/Parser/DocsXmlParser.cs:70-91 | the filled slots extend what came before by one per text or element child |
| DocsXmlParser.SlotOf | src/DocPluck/Parser/DocsXmlParser.cs:72-90 | text and element children fill one slot, other node kinds none |
| DocsXmlParser.ElementOf | src/DocPluck/Parser/DocsXmlParser.cs:79-88 | paramref and typeparamref carry the trimmed name attribute, c the trimmed inner text, see its cref, para its text, list its list, any other element an unknown element of its trimmed outer markup |
| DocsXmlParser.TextSlots | src/DocPluck/Parser/DocsXmlParser.cs:68-93 | the slot array has the child count as length and its trailing slots, one per skipped node, are null |
| DocsXmlParser.TextOfFilled | src/DocPluck/Parser/DocsXmlParser.cs:68-93 | an array with the filled slots in front and nulls behind is ParseText's result |
| DocsXmlParser.FillSlot | src/DocPluck/Parser/DocsXmlParser.cs:72-90 | one loop step writes its slot at the running index and advances it, leaving the rest of the array alone |
| DocsXmlParser.ParseText | src/DocPluck/Parser/DocsXmlParser.cs:64-94 | the array-filling loop computes exactly TextOf, the functional ParseText |
| DocsXmlParser.ListOf | src/DocPluck/Parser/DocsXmlParser.cs:46-62 | a list carries the type ParseDocListType reads from its type attribute |
| DocsXmlParser.ListFold | src/DocPluck/Parser/DocsXmlParser.cs:50-59 | the foreach cast succeeds only when every child is an element |
| DocsXmlParser.ParseList | src/DocPluck/Parser/DocsXmlParser.cs:46-62 | the loop keeps the last listheader and the items in order, as the fold does |
| DocsXmlParser.TagOf | src/DocPluck/Parser/DocsXmlParser.cs:114-158 | each case name selects exactly its own case of the switch; other names are ignored |
| DocsXmlParser.SetSection | src/DocPluck/Parser/DocsXmlParser.cs:116-130 | writing one section leaves every other section unchanged |
| DocsXmlParser.Step | src/DocPluck/Parser/DocsXmlParser.cs:114-158 | no case of the switch changes the member's name |
| DocsXmlParser.MemberFold | src/DocPluck/Parser/DocsXmlParser.cs:110-159 | the foreach cast succeeds only when every child is an element, and the name is kept |
| DocsXmlParser.MemberFoldCons | src/DocPluck/Parser/DocsXmlParser.cs:110-159 | a successful fold took its first step and folded the rest from there |
| DocsXmlParser.MemberOf | src/DocPluck/Parser/DocsXmlParser.cs:103-108 | the name attribute, untrimmed, must parse as a cref and becomes the member's name |
| DocsXmlParser.ParseMember | src/DocPluck/Parser/DocsXmlParser.cs:103-162 | the loop over the children computes exactly the fold |
| DocsXmlParser.StepSection | src/DocPluck/Parser/DocsXmlParser.cs:116-130 | a summary, remarks, example, value or returns child appends its text to its own section with DocText +, and no other child touches that section |
| DocsXmlParser.SectionsAccumulate | src/DocPluck/Parser/DocsXmlParser.cs:116-130 | a section holds the elements of all its tags in document order, and is null exactly when no such tag occurs |
| DocsXmlParser.StepParam | src/DocPluck/Parser/DocsXmlParser.cs:131-140 | a param or typeparam child appends its text under its trimmed name, and other children leave that entry alone |
| DocsXmlParser.ParamsAccumulate | src/DocPluck/Parser/DocsXmlParser.cs:131-140 | a repeated parameter name collects all its texts in document order |
| DocsXmlParser.ParamKeys | src/DocPluck/Parser/DocsXmlParser.cs:131-140 | the parameter map has an entry exactly for the names some param or typeparam tag carries |
| DocsXmlParser.StepEntries | src/DocPluck/Parser/DocsXmlParser.cs:141-150 | an exception or permission child adds one entry under its fresh cref |
| DocsXmlParser.EntriesAccumulate | src/DocPluck/Parser/DocsXmlParser.cs:141-150 | every exception or permission tag adds its own entry, in order, and none merge, because the keys are fresh objects |
| DocsXmlParser.EntriesNeedCrefs | src/DocPluck/Parser/DocsXmlParser.cs:141-150 | a member that parses has a non-blank cref on every exception and permission tag, since a null dictionary key throws |
| DocsXmlParser.StepSeeAlso | src/DocPluck/Parser/DocsXmlParser.cs:155-157 | only a seealso child changes the see-also list, by appending its cref, possibly null |
| DocsXmlParser.StepInheritDoc | src/DocPluck/Parser/DocsXmlParser.cs:151-154 | an inheritdoc child sets the flag and overwrites the cref; other children leave both |
| DocsXmlParser.SeeAlsoAccumulate | src/DocPluck/Parser/DocsXmlParser.cs:155-157 | the see-also list is every seealso cref in document order |
| DocsXmlParser.InheritDocLast | src/DocPluck/Parser/DocsXmlParser.cs:151-154 | the flag is set when any inheritdoc tag occurs, and the last one's cref wins |
| DocsXmlParser.AssemblyName | src/DocPluck/Parser/DocsXmlParser.cs:26-29 | the inner text of the first name child, null when there is none |
| DocsXmlParser.MemberRecords | src/DocPluck/Parser/DocsXmlParser.cs:260-265 | one record per member element, in order |
| DocsXmlParser.MemberRecordsFirstError | src/DocPluck/Parser/DocsXmlParser.cs:260-265 | a failure is the exception of the first element whose parse throws |
| DocsXmlParser.MemberRecordsAllOk | src/DocPluck/Parser/DocsXmlParser.cs:260-265 | when every element parses, the records are exactly their results |
| DocsXmlParser.MemberRecordsStops | src/DocPluck/Parser/DocsXmlParser.cs:260-265 | the first throwing element decides the outcome, whatever follows it |
| DocsXmlParser.ParseMemberList | src/DocPluck/Parser/DocsXmlParser.cs:262-265 | the Select(...).ToList() loop computes the records |
| DocsXmlParser.ParseMembers | src/DocPluck/Parser/DocsXmlParser.cs:260-268 | the element children are parsed and linked; a duplicate documented namespace or type key throws, otherwise the relations are wired |
| DocsXmlParser.ParseDocument | src/DocPluck/Parser/DocsXmlParser.cs:270-283 | the assembly name comes from the assembly child and the members from the members child; a missing child leaves its part null |
| XmlInfo.KeysAreIdBodies | src/DocPluck/XmlInfo/XmlDocTypeInfo.cs:25 | a type's key "{Namespace}.{TypeName}", a member's "{Namespace}.{TypeName}.{MemberName}" and a namespace's key are the cref's ID string without its "K:" prefix |
| XmlInfo.XmlDocNamespaceInfo.constructor | src/DocPluck/XmlInfo/XmlDocNamespaceInfo.cs:8-13 | a namespace node wraps its record and starts with no types |
| XmlInfo.XmlDocNamespaceInfo.AddType | src/DocPluck/XmlInfo/XmlDocNamespaceInfo.cs:13 | Types.Add appends the type and changes nothing else |
| XmlInfo.XmlDocTypeInfo.constructor | src/DocPluck/XmlInfo/XmlDocTypeInfo.cs:9-23 | a type node wraps its record, its Namespace is unset and its four member lists start empty |
| XmlInfo.XmlDocTypeInfo.AddMember | src/DocPluck/XmlInfo/XmlDocTypeInfo.cs:17-23 | adding a member appends it to the list of its own kind only and leaves Namespace alone |
| XmlInfo.XmlDocMemberInfo.constructor | src/DocPluck/XmlInfo/XmlDocPropertyInfo.cs:9-18 | a member node wraps its record with no declaring type, and a property's own Parameters, Exceptions and Value start null |
| MemberRelations.OfKind | src/DocPluck/Parser/DocsXmlParser.cs:166-194 | each Where(m => m.Name.Kind == k) keeps exactly the records of that kind, no more of them than there are records |
| MemberRelations.NamespaceKeys | src/DocPluck/Parser/DocsXmlParser.cs:166-169 | the namespace dictionary is keyed by each record's namespace, one key per record in order |
| MemberRelations.TypeKeys | src/DocPluck/Parser/DocsXmlParser.cs:171-174 | the type dictionary is keyed by each record's "{Namespace}.{TypeName}", one key per record in order |
| MemberRelations.Attached | src/DocPluck/Parser/DocsXmlParser.cs:209-235 | a type's list of one member kind holds only members of that kind whose declaring key is the type's key |
| MemberRelations.AttachedSnoc | src/DocPluck/Parser/DocsXmlParser.cs:209-235 | attaching one more member appends it to exactly the list of its kind on its declaring type and leaves every other list as it was |
| MemberRelations.FindType | src/DocPluck/Parser/DocsXmlParser.cs:199 | TryGetValue: a found index holds the key, and -1 means no type has it |
| MemberRelations.Get | src/DocPluck/Parser/DocsXmlParser.cs:196-206 | Get returns the type with the member's declaring key; when none exists a fresh empty Type-kind node for the member's namespace and type is added under a key no other type has, and the dictionary is otherwise unchanged |
| MemberRelations.AddToType | src/DocPluck/Parser/DocsXmlParser.cs:212 | after Methods.Add (or the list of the member's kind) every type's lists are exactly the members of that kind declared on it so far, in order |
| MemberRelations.SetDeclaringType | src/DocPluck/Parser/DocsXmlParser.cs:213 | after DeclaringType = value every member done so far points at the type with its declaring key |
| MemberRelations.Link | src/DocPluck/Parser/DocsXmlParser.cs:212-213 | adding the member and pointing it at its type keeps type keys unique, declaring types right and member lists exact |
| MemberRelations.AttachOne | src/DocPluck/Parser/DocsXmlParser.cs:209-214 | one loop iteration keeps the links exact and either leaves the types alone or appends one fresh type made up for this member |
| MemberRelations.Attach | src/DocPluck/Parser/DocsXmlParser.cs:209-214 | one foreach loop links every member of its batch, keeps the earlier types first and adds only types some member of the batch needed |
| MemberRelations.SynthesisedAcross | src/DocPluck/Parser/DocsXmlParser.cs:209-235 | types made up by an earlier loop stay justified by some member after a later loop appends its own |
| MemberRelations.AttachAll | src/DocPluck/Parser/DocsXmlParser.cs:209-235 | the four loops, methods then properties then fields then events, leave each type listing exactly the members it declares and each made-up type needed by some member |
| MemberRelations.Contained | src/DocPluck/Parser/DocsXmlParser.cs:237-248 | a namespace's type list holds only types in that namespace |
| MemberRelations.ContainedSnoc | src/DocPluck/Parser/DocsXmlParser.cs:237-248 | placing one more type appends it to its own namespace's list only |
| MemberRelations.FindNamespace | src/DocPluck/Parser/DocsXmlParser.cs:240 | TryGetValue on the namespace dictionary: a found index holds the key, and -1 means no namespace has it |
| MemberRelations.GetNamespace | src/DocPluck/Parser/DocsXmlParser.cs:239-244 | a type's namespace is looked up by its namespace key; when missing a fresh empty namespace with a Type-kind cref is added under a new key |
| MemberRelations.AddToNamespace | src/DocPluck/Parser/DocsXmlParser.cs:246 | after Types.Add every namespace lists exactly the types placed in it so far, in order |
| MemberRelations.SetNamespace | src/DocPluck/Parser/DocsXmlParser.cs:247 | after m.Namespace = value every type placed so far points at the namespace with its key, and its member lists are untouched |
| MemberRelations.PlaceType | src/DocPluck/Parser/DocsXmlParser.cs:237-248 | one iteration of the namespace loop keeps the namespace links exact and adds at most one fresh made-up namespace for this type |
| MemberRelations.PlaceTypes | src/DocPluck/Parser/DocsXmlParser.cs:237-248 | the namespace loop places every type, keeps the documented namespaces first, adds only namespaces some type needed and leaves member lists alone |
| MemberRelations.NewMembers | src/DocPluck/Parser/DocsXmlParser.cs:176-194 | one fresh member node per record of the kind, in order |
| MemberRelations.NewNamespaces | src/DocPluck/Parser/DocsXmlParser.cs:166-169 | ToDictionary fails with a duplicate-key error exactly when two namespace records share a namespace; otherwise one fresh node per record with no types |
| MemberRelations.NewTypes | src/DocPluck/Parser/DocsXmlParser.cs:171-174 | ToDictionary fails with a duplicate-key error exactly when two type records share a key; otherwise one fresh unlinked node per record |
| MemberRelations.Relations.Flatten | src/DocPluck/Parser/DocsXmlParser.cs:250-257 | the returned array has one entry per namespace, type, event, field, property and method node |
| MemberRelations.Place | src/DocPluck/Parser/DocsXmlParser.cs:237-248 | the namespace loop does not disturb the member links the earlier loops made |
| MemberRelations.Wire | src/DocPluck/Parser/DocsXmlParser.cs:208-248 | the five loops keep the member lists as built, the documented types and namespaces first, every made-up node justified, and all links exact in both directions |
| MemberRelations.CreateMemberRelations | src/DocPluck/Parser/DocsXmlParser.cs:164-258 | the pass fails with a duplicate-key error exactly when two namespace records or two type records share a key, and otherwise returns nodes wired as Wired describes |
| XmlNames.TypeId | src/DocPluck/XmlDocumentationExtensions.cs:131-149 | a method generic parameter is ``n, a type generic parameter `n, a constructed type its full name with the argument IDs in braces, a generic definition its full name, a backtick and its arity, any other type its full name; a null type throws |
| XmlNames.TypeIds | src/DocPluck/XmlDocumentationExtensions.cs:143 | the argument IDs are the IDs of the arguments, one each and in order |
| XmlNames.ParameterIds | src/DocPluck/XmlDocumentationExtensions.cs:161 | the parameter IDs are the IDs of the parameter types, one each and in order; a parameter without a type throws |
| XmlNames.WithParameters | src/DocPluck/XmlDocumentationExtensions.cs:159-161 | no parameters leave the base name as it is; otherwise the ID starts with the base name |
| XmlNames.MethodId | src/DocPluck/XmlDocumentationExtensions.cs:151-162 | a method's ID starts with its declaring type's ID and a dot, and fails exactly as that ID fails |
| XmlNames.ArityMark | src/DocPluck/XmlDocumentationExtensions.cs:154-156 | the generic arity mark of a method never holds a parenthesis |
| XmlNames.ConstructorId | src/DocPluck/XmlDocumentationExtensions.cs:172-179 | a constructor's ID starts with its declaring type's ID and ".#ctor" |
| XmlNames.PropertyId | src/DocPluck/XmlDocumentationExtensions.cs:164-170 | a property's ID starts with its declaring type's ID, a dot and its name; with index parameters, even none, it ends in ")" |
| XmlNames.MemberId | src/DocPluck/XmlDocumentationExtensions.cs:181-184 | a field or event ID is the declaring type's ID, a dot and exactly the member's name |
| XmlNames.MethodIdParenthesised | src/DocPluck/XmlDocumentationExtensions.cs:151-162 | when neither the type ID nor the name holds '(', a method's ID holds '(' exactly when the method has parameters |
| XmlNames.PlainTypeIdIsFullName | src/DocPluck/XmlDocumentationExtensions.cs:146-148 | a type with none of the generic flags is documented under its full name |
| XmlNames.DefinitionTypeIdHasArity | src/DocPluck/XmlDocumentationExtensions.cs:146-147 | a generic type definition is documented under its full name, a backtick and its number of generic arguments |
| XmlNames.DocumentedKeyIsId | src/DocPluck/XmlDocumentationExtensions.cs:37-38 | the key a documentation node gets from its cref is the ID without the "K:" prefix, so a type or member documented under "K:" + id is found by id |
| XmlNames.FirstNamespaceNamed | src/DocPluck/XmlDocumentationExtensions.cs:29 | FirstOrDefault over the namespace nodes: found exactly when some namespace node has the name, and then the first of them |
| XmlNames.FirstTypeNamed | src/DocPluck/XmlDocumentationExtensions.cs:38 | FirstOrDefault over the type nodes: found exactly when some type node has the key, and then the first of them |
| XmlNames.FirstMemberNamed | src/DocPluck/XmlDocumentationExtensions.cs:47 | FirstOrDefault over the member nodes of one kind: found exactly when some such node has the key |
| XmlNames.FirstInList | src/DocPluck/XmlDocumentationExtensions.cs:92 | FirstOrDefault over one list of a documented type: found exactly when some entry has the key, and then the first of them |
| XmlNames.GetNamespace | src/DocPluck/XmlDocumentationExtensions.cs:24-30 | a null documentation or namespace gives null; a missing member array throws ArgumentNull("source"); a result has the namespace's name |
| XmlNames.GetType | src/DocPluck/XmlDocumentationExtensions.cs:32-39 | a null documentation or type gives null; a type whose ID throws passes the exception on; otherwise the result is the type node keyed by the type's ID |
| XmlNames.GetMember | src/DocPluck/XmlDocumentationExtensions.cs:41-84 | the documentation-level Get overloads: null in gives null, an ID that throws passes on, and a result is the node of the member's kind keyed by its ID (constructors among the methods) |
| XmlNames.GetTypeMember | src/DocPluck/XmlDocumentationExtensions.cs:86-129 | the type-level Get overloads: null in gives null, and otherwise the result is found exactly when the type's list of that kind holds an entry keyed by the member's ID |
| DocsParser.Write | src/DocPluck/Parser/DocsParser.cs:157 | one assignment Documentation = value: its node holds the value afterwards and every other node keeps what it held |
| DocsParser.Apply | src/DocPluck/Parser/DocsParser.cs:155-172 | running the writes in order leaves every node holding the value of the last write to it |
| DocsParser.Then | src/DocPluck/Parser/DocsParser.cs:153-173 | a statement sequence stops at the first exception: a failed first part is the whole outcome, otherwise the writes of both parts in order |
| DocsParser.NamespacePlan | src/DocPluck/Parser/DocsParser.cs:155-158 | the namespace loop writes documentation.Get(ns) to each namespace in order, null when nothing is found, stopping at the first namespace whose lookup throws |
| DocsParser.NamespaceOrNull | src/DocPluck/Parser/DocsParser.cs:157 | a missing namespace node is written as null and a found one as itself |
| DocsParser.TypeOrNull | src/DocPluck/Parser/DocsParser.cs:162 | a missing type node is written as null and a found one as itself |
| DocsParser.MemberOrNull | src/DocPluck/Parser/DocsParser.cs:167-171 | a missing member node is written as null and a found one as itself |
| DocsParser.MemberRefs | src/DocPluck/Parser/DocsParser.cs:167-171 | the members are visited as methods, then constructors, properties, events and fields, each list in order |
| DocsParser.MemberPlan | src/DocPluck/Parser/DocsParser.cs:167-171 | each member gets typeDoc.Get(member), in order, stopping at the first lookup that throws |
| DocsParser.TypePlanWrites | src/DocPluck/Parser/DocsParser.cs:160-172 | a type whose lookup throws writes nothing; a type the documentation lacks gets null and its members are skipped; a documented type gets its node and then every member its lookup in that node |
| DocsParser.TypesPlanCovers | src/DocPluck/Parser/DocsParser.cs:160-172 | when no lookup throws, every type of the assembly is written with what documentation.Get(type) finds |
| DocsParser.Combine | src/DocPluck/Parser/DocsParser.cs:145-173 | ApplyXmlDocumentation performs the writes of the namespace loop and the type loop, each node ending with its last write, and reports the exception that stopped it |
| NugetPackage.Framework | src/DocPluck/Parser/DocsParser.cs:92-102 | an entry's directory must split into exactly "lib" and one more piece, which is its target framework |
| NugetPackage.FrameworkOf | src/DocPluck/Parser/DocsParser.cs:92-102 | a framework name without '/' is found exactly for the directory "lib/" followed by it |
| NugetPackage.RoleOfEntry | src/DocPluck/Parser/DocsParser.cs:89-120 | inside lib/<framework> an entry is documentation exactly for a lower-cased ".xml" extension on a name other than "[Content_Types].xml", an assembly exactly for ".dll", and skipped otherwise; outside it is skipped |
| NugetPackage.Roles | src/DocPluck/Parser/DocsParser.cs:89 | one role per archive entry |
| NugetPackage.StepWellOrdered | src/DocPluck/Parser/DocsParser.cs:104-120 | one entry keeps the assembly names listed once each and listed exactly when they are keys |
| NugetPackage.WalkWellOrdered | src/DocPluck/Parser/DocsParser.cs:89-121 | the entry loop lists every stored assembly name once |
| NugetPackage.WalkDocumentation | src/DocPluck/Parser/DocsParser.cs:106-112 | a successful loop holds every documentation entry, in archive order, under its framework and assembly name |
| NugetPackage.StepAssemblies | src/DocPluck/Parser/DocsParser.cs:113-118 | an assembly entry stores its parsed assembly under its simple name, replacing an earlier one; other entries leave the assemblies alone |
| NugetPackage.WalkAssemblyKeys | src/DocPluck/Parser/DocsParser.cs:113-118 | after a successful loop every assembly entry parsed, had a name, and that name is a key |
| NugetPackage.WalkLastAssembly | src/DocPluck/Parser/DocsParser.cs:117 | after a successful loop each key holds the assembly of the last entry stored under it |
| NugetPackage.WalkStops | src/DocPluck/Parser/DocsParser.cs:89-121 | an exception on a prefix of the entries is the outcome of the whole loop |
| NugetPackage.FirstDocumentationFor | src/DocPluck/Parser/DocsParser.cs:126 | FirstOrDefault over the documentation files: found exactly when some key names the assembly, and then the first such file |
| NugetPackage.Pairs | src/DocPluck/Parser/DocsParser.cs:124-130 | each assembly is paired with the first documentation file for its name, and an assembly without one is skipped |
| NugetPackage.PairsFrom | src/DocPluck/Parser/DocsParser.cs:124-130 | the pairs from the k-th assembly on come from those assemblies, each with its first documentation file |
| NugetPackage.WalkEntries | src/DocPluck/Parser/DocsParser.cs:89-121 | the entry loop computes the walk over the classified entries, stopping at the first exception |
| NugetPackage.ParseFromNugetPackage | src/DocPluck/Parser/DocsParser.cs:83-133 | an exception in the entry loop is the outcome; otherwise the two dictionaries and the assemblies paired with their documentation, in the order ApplyXmlDocumentation is called |
| NugetPackage.CollectAssemblyKeys | src/DocPluck/Parser/DocsParser.cs:113-118 | after a successful parse every entry classified as an assembly is stored under its name |
| InfoProvider.Registry.constructor | src/DocPluck/Parser/DocsInfoProvider.cs:32-35 | a provider starts over its reader with every cache empty |
| InfoProvider.Registry.Types | src/DocPluck/Parser/DocsInfoProvider.cs:37 | Types lists the cached definition nodes, one per cached TypeDefinition handle, in insertion order |
| InfoProvider.Registry.TypesAreDefinitions | src/DocPluck/Parser/DocsInfoProvider.cs:37 | Types holds every cached definition node and nothing else, never a reference node |
| InfoProvider.Registry.Namespaces | src/DocPluck/Parser/DocsInfoProvider.cs:39 | Namespaces lists the cached namespace nodes in insertion order |
| InfoProvider.Registry.NamespacesAreCached | src/DocPluck/Parser/DocsInfoProvider.cs:39 | Namespaces holds every cached namespace node, each under a non-nil handle, and nothing else |
| InfoProvider.Registry.ResolveDefinition | src/DocPluck/Parser/DocsInfoProvider.cs:58-62 | a cached definition handle returns its node and changes nothing; a new one caches and returns a fresh blank node and touches no other cache |
| InfoProvider.Registry.ResolveReference | src/DocPluck/Parser/DocsInfoProvider.cs:63-87 | a cached reference handle returns its node; a new one caches a fresh external node with the row's namespace and name and the assembly of its resolution scope; a missing row is a bad image |
| InfoProvider.Registry.ResolveScope | src/DocPluck/Parser/DocsInfoProvider.cs:69-79 | a cached scope gives its assembly; an AssemblyReference scope seen first gets a fresh assembly named from its row, cached under the scope; any other scope gives null and caches nothing |
| InfoProvider.Registry.ResolveType | src/DocPluck/Parser/DocsInfoProvider.cs:41-98 | a nil handle gives null; an exported type resolves as its implementation; definitions and references are memoised; a specification is decoded afresh; any other kind throws ArgumentOutOfRange |
| InfoProvider.Registry.ResolveNamespace | src/DocPluck/Parser/DocsInfoProvider.cs:100-109 | a nil handle gives null; otherwise the cached node, or a fresh empty node cached under the handle |
| InfoProvider.Registry.Decode | src/DocPluck/Parser/DocsInfoProvider.cs:88-94 | decoding a TypeSpecification signature through the provider callbacks: a primitive succeeds exactly for a defined code and carries its runtime name, a definition or reference handle resolves as ResolveType does, a nil handle, a TypeSpecification handle in class position or another table is a bad image, a modified type is its modifier's node (with the same bad-image cases), and every success is a readable node |
| InfoProvider.Registry.DecodeClass | src/DocPluck/Parser/SignatureTypeProvider.cs:117-130 | a type handle goes to the definition or reference case, and to the specification case only where specifications are allowed; a specification elsewhere, a missing specification row, a nil handle or another table is a bad image |
| InfoProvider.Registry.DecodeShaped | src/DocPluck/Parser/SignatureTypeProvider.cs:195-238 | the pinned and multi-dimensional array shapes decode their element and give a readable node |
| InfoProvider.Registry.DecodeModifier | src/DocPluck/Parser/SignatureTypeProvider.cs:117-130 | the modifier of a modified type is the one handle that may name a TypeSpecification; a definition or reference handle resolves to its cached node, a nil handle or another table is a bad image |
| InfoProvider.Registry.DecodeModified | src/DocPluck/Parser/SignatureTypeProvider.cs:228-232 | a modified type decodes its modifier, then the unmodified type, and GetModifiedType hands back the modifier: a definition or reference modifier gives its cached node, and a nil or foreign-table modifier handle is a bad image |
| InfoProvider.Registry.DecodeWrapper | src/DocPluck/Parser/SignatureTypeProvider.cs:132-160 | the single-dimension array, pointer and by-ref shapes give a fresh node with exactly the matching flag set |
| InfoProvider.Registry.DecodeGenericInstance | src/DocPluck/Parser/SignatureTypeProvider.cs:200-226 | a generic instance decodes its open type and arguments and gives a fresh generic node; an open type that is a nil or TypeSpecification handle, or a handle of another table, is a bad image |
| InfoProvider.Registry.DecodeArguments | src/DocPluck/Parser/SignatureTypeProvider.cs:200-210 | the arguments of a generic instance decode one per signature argument, stopping at the first failure |
| InfoProvider.NewReferenceNode | src/DocPluck/Parser/DocsInfoProvider.cs:81-87 | a fresh external node with the row's namespace and name and the given assembly, with no element, declaring type or generic arguments |
| SignatureTypes.RuntimeName | src/DocPluck/Parser/SignatureTypeProvider.cs:91-115 | GetPrimitiveType names a node for exactly the defined primitive codes |
| SignatureTypes.RuntimeNameInjective | src/DocPluck/Parser/SignatureTypeProvider.cs:91-115 | distinct defined codes name distinct runtime types |
| SignatureTypes.EnumCodeOfName | src/DocPluck/Parser/SignatureTypeProvider.cs:72-83 | the name switch of GetUnderlyingEnumType only ever gives an integral code |
| SignatureTypes.GetUnderlyingEnumType | src/DocPluck/Parser/SignatureTypeProvider.cs:66-84 | an unknown underlying type gives Int32; otherwise the result is integral and is the code whose runtime name the type carries for the six codes named Int16 to UInt64 |
| SignatureTypes.ByteEnumsDecodeAsInt32 | src/DocPluck/Parser/SignatureTypeProvider.cs:72-83 | the runtime names of sbyte and byte are "SByte" and "Byte", which the switch does not list, so both fall to Int32 |
| SignatureTypes.CorrectedEnumCodeOfName | src/DocPluck/Parser/SignatureTypeProvider.cs:72-83 | the switch keyed by runtime type names gives an integral code |
| SignatureTypes.CorrectedEnumCodeRoundTrip | src/DocPluck/Parser/SignatureTypeProvider.cs:66-84 | with the corrected switch every integral code comes back from its runtime name |
| SignatureTypes.CorrectedUnderlyingEnumType | src/DocPluck/Parser/SignatureTypeProvider.cs:66-84 | over the corrected switch an enum's underlying code is the integral code its underlying type is named after |
| SignatureTypes.GetTypeFromSerializedName | src/DocPluck/Parser/SignatureTypeProvider.cs:61-64 | always throws NotImplemented |
| SignatureTypes.FromKnownType | src/DocPluck/Parser/SignatureTypeProvider.cs:246-257 | a fresh external node with the runtime type's name, namespace and attributes, so its full name is namespace, dot, name |
| SignatureTypes.GetPrimitiveType | src/DocPluck/Parser/SignatureTypeProvider.cs:91-115 | null exactly for a code outside the enumeration; otherwise a fresh external node in System named after the code's runtime type |
| SignatureTypes.GetSystemType | src/DocPluck/Parser/SignatureTypeProvider.cs:56-59 | a fresh external node whose full name is System.Type |
| SignatureTypes.GetWrapperType | src/DocPluck/Parser/SignatureTypeProvider.cs:132-160 | a fresh external node around the element with exactly one of IsArray, IsPointer and IsByRef set, named after the element |
| SignatureTypes.ArgumentAt | src/DocPluck/Parser/SignatureTypeProvider.cs:171 | an argument exists exactly when the list exists and is longer than the index |
| SignatureTypes.ParameterName | src/DocPluck/Parser/SignatureTypeProvider.cs:171-191 | a generic parameter is named after the context's argument at its index when there is one, and "T" followed by the index otherwise |
| SignatureTypes.GetGenericMethodParameter | src/DocPluck/Parser/SignatureTypeProvider.cs:162-175 | a fresh method generic parameter node with the index and the name the method context gives it |
| SignatureTypes.GetGenericTypeParameter | src/DocPluck/Parser/SignatureTypeProvider.cs:177-193 | a fresh type generic parameter node, a method context standing for its declaring type, with the index and the name the context gives it |
| SignatureTypes.GetPinnedType | src/DocPluck/Parser/SignatureTypeProvider.cs:195-198 | the pinned shape is transparent: the element type itself |
| SignatureTypes.GetModifiedType | src/DocPluck/Parser/SignatureTypeProvider.cs:228-232 | the modifier is returned, not the modified type |
| SignatureTypes.GetArrayType | src/DocPluck/Parser/SignatureTypeProvider.cs:234-238 | the array shape is dropped: the element type itself |
| SignatureTypes.GetFunctionPointerType | src/DocPluck/Parser/SignatureTypeProvider.cs:240-244 | a fresh blank node |
| SignatureTypes.GetGenericInstantiation | src/DocPluck/Parser/SignatureTypeProvider.cs:200-226 | a fresh generic node copying the open type's name, namespace, attributes, links and flags, with the supplied arguments and the open type's member lists |
| PEParser.StripArity | src/DocPluck/Parser/DocsPEParser.cs:127-130 | the name up to its first backtick: a prefix of the name without backticks, cut exactly at a backtick |
| PEParser.StripArityIdempotent | src/DocPluck/Parser/DocsPEParser.cs:325-327 | stripping the arity twice is stripping it once |
| PEParser.StripAritySuffix | src/DocPluck/Parser/DocsPEParser.cs:325-327 | a name written base, backtick, arity strips back to base |
| PEParser.GeneratedIgnoresArity | src/DocPluck/Parser/DocsPEParser.cs:39-43 | stripping the arity never changes whether a name counts as compiler generated |
| PEParser.AsWrittenRows | src/DocPluck/Parser/DocsPEParser.cs:145-171 | the loop pairs the k-th Param row enumerated with the k-th signature type and skips rows past the signature's length |
| PEParser.ReturnRowShiftsNames | src/DocPluck/Parser/DocsPEParser.cs:148-171 | a return-value Param row (sequence 0) ahead of the one parameter's row gives the parameter the return row's empty name, and the parameter's own row is lost |
| PEParser.RowWithSequence | src/DocPluck/Parser/DocsPEParser.cs:154 | the Param row describing a position, found only when some row has that sequence number |
| PEParser.ParameterSlots | src/DocPluck/Parser/DocsPEParser.cs:145-171 | the intended pairing: one slot per signature parameter |
| PEParser.ParameterSlotsMatchSequence | src/DocPluck/Parser/DocsPEParser.cs:145-171 | under the intended pairing a slot holds the row of its own position, is empty only when no row describes it, and no row of a parameter position is lost |
| PEParser.PairingsAgreeOnSequentialRows | src/DocPluck/Parser/DocsPEParser.cs:145-171 | when the rows are numbered 1, 2, ... as for methods without return-value rows, the written and the intended pairings agree |
| PEParser.FilterMembers | src/DocPluck/Parser/DocsPEParser.cs:247-249 | the Where of a LINQ chain keeps exactly the accepted elements |
| PEParser.MethodContextNamed | src/DocPluck/Parser/DocsPEParser.cs:143 | a method whose generic parameters are plain, declared by a type with readable arguments, gives a context in which every generic parameter has a name |
| PEParser.TypeContextNamed | src/DocPluck/Parser/DocsPEParser.cs:87 | a type with readable generic arguments gives a context in which every generic parameter has a name |
| PEParser.NewGenericParameter | src/DocPluck/Parser/DocsPEParser.cs:184-195 | one fresh generic parameter node with its row's name and attributes, flagged as a method or a type parameter, carrying its resolved constraints |
| PEParser.NewParameter | src/DocPluck/Parser/DocsPEParser.cs:156-168 | one fresh parameter with the row's name, attributes and custom attributes, the signature type, and the row's constant as its default when it has one |
| PEParser.BareParameters | src/DocPluck/Parser/DocsPEParser.cs:95-100 | one fresh parameter per index type, carrying only that type |
| PEParser.EnumValueOf | src/DocPluck/Parser/DocsPEParser.cs:218-219 | only a field of an enum with a constant gets an enum value |
| PEParser.SplitMethods | src/DocPluck/Parser/DocsPEParser.cs:247-260 | each parsed method in row order goes to the constructors when it is named ".ctor" and to the methods otherwise; dropped rows contribute nothing |
| PEParser.CollectListed | src/DocPluck/Parser/DocsPEParser.cs:247-260 | the parsed methods of the rows kept, in row order |
| PEParser.SplitFields | src/DocPluck/Parser/DocsPEParser.cs:263-269 | in row order, the value__ field of an enum gives the underlying type, every other parsed field is listed, and backing fields contribute nothing |
| PEParser.Extractor.constructor | src/DocPluck/Parser/DocsPEParser.cs:32-37 | a new parser over a reader with its own empty provider, not yet parsed and without a module |
| PEParser.Extractor.ParseCustomAttributes | src/DocPluck/Parser/DocsPEParser.cs:272-313 | each row gives its attribute type and arguments; a BadImageFormatException anywhere gives the empty list; any other exception propagates |
| PEParser.Extractor.ResolveAll | src/DocPluck/Parser/DocsPEParser.cs:227-230 | the handles are resolved in turn, one node per handle |
| PEParser.Extractor.ResolveConstraints | src/DocPluck/Parser/DocsPEParser.cs:190-194 | the constraint handles of one generic parameter, resolved in order |
| PEParser.Extractor.ParseGenericArguments | src/DocPluck/Parser/DocsPEParser.cs:176-197 | no generic parameters give null; otherwise one fresh node per row, flagged as a method or a type parameter, with its constraints resolved |
| PEParser.Extractor.DecodeOne | src/DocPluck/Parser/DocsPEParser.cs:207 | a decoded signature type is never null and is readable by name |
| PEParser.Extractor.DecodeSignature | src/DocPluck/Parser/DocsPEParser.cs:143 | a method signature decodes its return type and then each parameter type in turn |
| PEParser.Extractor.ParseParameters | src/DocPluck/Parser/DocsPEParser.cs:145-171 | one fresh parameter per slot up to the shorter of rows and signature types, each from its row with the signature type of its slot; a constant that fails to read fails the method |
| PEParser.Extractor.ParseMethod | src/DocPluck/Parser/DocsPEParser.cs:116-174 | lambdas and static initialisers give null; any other row gives a fresh method named without its arity suffix, declared by the owner, with its attributes, custom attributes, generic parameters, return type and paired parameters |
| PEParser.Extractor.ParseMethodSignature | src/DocPluck/Parser/DocsPEParser.cs:143-173 | the signature decoded in the method's own context gives the return type and, paired with the Param rows, the parameters |
| PEParser.Extractor.ParseMethodHeader | src/DocPluck/Parser/DocsPEParser.cs:132-141 | the fresh method with its name, declaring type, attributes, custom attributes and generic parameters |
| PEParser.Extractor.ParseProperty | src/DocPluck/Parser/DocsPEParser.cs:83-102 | the signature decoded in the declaring type's context gives the property type and, when it has parameter types, one bare index parameter each, null otherwise |
| PEParser.Extractor.ParseEvent | src/DocPluck/Parser/DocsPEParser.cs:104-114 | a fresh event with its name, declaring type, resolved handler type and custom attributes |
| PEParser.Extractor.ParseFieldHeader | src/DocPluck/Parser/DocsPEParser.cs:201-216 | a fresh field with its name, attributes, decoded type, custom attributes and declaring type |
| PEParser.Extractor.ParseField | src/DocPluck/Parser/DocsPEParser.cs:199-222 | a backing field gives null; any other field is parsed, and gets the row's constant as enum value when its declaring type is an enum |
| PEParser.Extractor.ParseProperties | src/DocPluck/Parser/DocsPEParser.cs:233-234 | the properties of a type, parsed in row order |
| PEParser.Extractor.ParseEvents | src/DocPluck/Parser/DocsPEParser.cs:243-244 | the events of a type, parsed in row order |
| PEParser.Extractor.ParseNestedTypes | src/DocPluck/Parser/DocsPEParser.cs:237-240 | the nested rows whose names are not compiler generated, resolved in row order; a row outside the TypeDef table is a bad image |
| PEParser.Extractor.ParseListedMethod | src/DocPluck/Parser/DocsPEParser.cs:247-260 | one MethodDef row: null for a dropped name, a constructor node copied from the parsed method for ".ctor", the parsed method otherwise |
| PEParser.Extractor.ParseMethods | src/DocPluck/Parser/DocsPEParser.cs:247-260 | the methods of a type in row order, split into methods and constructor nodes |
| PEParser.Extractor.ParseMethodRows | src/DocPluck/Parser/DocsPEParser.cs:247-249 | each MethodDef row of a type parsed in turn |
| PEParser.Extractor.ParseFieldRows | src/DocPluck/Parser/DocsPEParser.cs:263-265 | each Field row of a type parsed in turn |
| PEParser.Extractor.ParseFields | src/DocPluck/Parser/DocsPEParser.cs:263-269 | the fields of a type in row order, split into the listed fields and the enum's underlying type |
| PEParser.Extractor.ParseMemberLists | src/DocPluck/Parser/DocsPEParser.cs:224-270 | the member lists in the source's order: interfaces, properties, nested types, events, methods and constructors, fields |
| PEParser.Extractor.ParseMethodsAndFields | src/DocPluck/Parser/DocsPEParser.cs:246-269 | the methods and constructors, then the fields |
| PEParser.Extractor.ParseTypeMembers | src/DocPluck/Parser/DocsPEParser.cs:224-270 | the parsed lists are appended to the type's lists and its header is untouched; on an exception the type is unchanged |
| PEParser.Extractor.ResolveNamespaces | src/DocPluck/Parser/DocsPEParser.cs:361 | the child namespace handles resolved in order |
| PEParser.Extractor.FillNamespace | src/DocPluck/Parser/DocsPEParser.cs:356-362 | the namespace node gets its parent, types, exported types, child namespaces and name from its row |
| PEParser.Extractor.ParseNamespace | src/DocPluck/Parser/DocsPEParser.cs:349-363 | nothing happens for the nil handle or a namespace parsed before; otherwise the node is filled from its row, a missing row being a bad image |
| PEParser.Extractor.ParseNamespaceNode | src/DocPluck/Parser/DocsPEParser.cs:353-362 | past the lookup, a namespace not yet parsed is filled from its row |
| PEParser.Extractor.ParseModule | src/DocPluck/Parser/DocsPEParser.cs:370-394 | the module is built once, named from the module row, and given a fresh assembly named from the assembly row; later calls return the same node and change nothing |
| PEParser.Extractor.ParseAssembly | src/DocPluck/Parser/DocsPEParser.cs:365-368 | the assembly of the memoised module |
| PEParser.Extractor.ParseTypeLinks | src/DocPluck/Parser/DocsPEParser.cs:335-338 | a TypeDef row's declaring type, generic parameters as type parameters, and base type |
| PEParser.Extractor.ParseTypeOrigin | src/DocPluck/Parser/DocsPEParser.cs:334-342 | a TypeDef row's attributes, then the memoised assembly and module |
| PEParser.Extractor.ParseTypeFields | src/DocPluck/Parser/DocsPEParser.cs:330-342 | the header values of a TypeDef row: the name without arity, namespace, links, attributes, custom attributes, assembly and module |
| PEParser.Extractor.ParseTypeHeader | src/DocPluck/Parser/DocsPEParser.cs:330-342 | the node of the row is resolved and gets its header |
| PEParser.Extractor.ParseDefinedType | src/DocPluck/Parser/DocsPEParser.cs:330-344 | the node of a TypeDef row gets its header and its members appended, and no other type node changes |
| PEParser.Extractor.ParseType | src/DocPluck/Parser/DocsPEParser.cs:315-347 | a generated name is skipped before anything is resolved; otherwise the row's node gets its header and members and its namespace is parsed |
| PEParser.Extractor.StoreHeader | src/DocPluck/Parser/DocsPEParser.cs:332-342 | the header values parsed from a TypeDef row are stored in its node, whose member lists are untouched, and the registry stays consistent |
| PEParser.Extractor.FillHeader | src/DocPluck/Parser/DocsPEParser.cs:330-342 | the cached node of the row gets the header parsed from the row, with the memoised module and its assembly; an exception leaves the member lists as they were |
| PEParser.Extractor.ParseTypes | src/DocPluck/Parser/DocsPEParser.cs:459 | every TypeDef row in order goes through ParseType, the first exception ending the loop; afterwards every row whose name is not generated has a node, and with only generated rows the module is the one there was before |
| PEParser.Extractor.RunPasses | src/DocPluck/Parser/DocsPEParser.cs:462-466 | the accessor pass on the definition nodes in the order they were first cached: the inputs it records are each node's state before the pass; a pass that throws gives NullReference; otherwise every node holds the method list and the accessors both passes compute from those inputs |
| PEParser.Extractor.MoveAccessors | src/DocPluck/Parser/DocsPEParser.cs:461-466 | the same as RunPasses, and the registry stays consistent: only the method lists of the nodes and the accessors of their properties and events change |
| PEParser.Extractor.ParseAll | src/DocPluck/Parser/DocsPEParser.cs:459-466 | the ParseType loop, then, when it does not throw, the accessor pass; with no exception every row not generated has a node and every node has had both passes |
| PEParser.Extractor.Parse | src/DocPluck/Parser/DocsPEParser.cs:454-469 | a second call throws InvalidOperation and changes nothing; otherwise every TypeDef row goes through ParseType and every definition node through the property pass and the event pass; an exception in either loop leaves Parse not marked done; once marked done, every definition node holds the method list and accessors both passes compute from its state before them, and the result holds the module, its assembly, and the provider's namespaces and definition nodes; a module never parsed makes the assembly read throw NullReference after the mark |
| Accessors.FirstNamed | src/DocPluck/Parser/DocsPEParser.cs:398 | the index of the first method with the name, the list's length when there is none |
| Accessors.SpecialAccessor | src/DocPluck/Parser/DocsPEParser.cs:398-400 | the method handed to the callback is the first of its name and is SpecialName; null means there is none or the first of that name is not SpecialName |
| Accessors.IndexOf | src/DocPluck/Parser/DocsPEParser.cs:402 | the first occurrence of a node, or the list's length exactly when the node is absent |
| Accessors.Without | src/DocPluck/Parser/DocsPEParser.cs:402 | List.Remove of a node that is not in the list leaves the list as it is |
| Accessors.WithoutMultiset | src/DocPluck/Parser/DocsPEParser.cs:402 | List.Remove of a present node drops exactly one occurrence of it: one element fewer, the same multiset otherwise |
| Accessors.ParametersEquals | src/DocPluck/Parser/DocsPEParser.cs:405-408 | true exactly when the parameter types agree on the common prefix; a null left parameter type reached by the walk throws NullReference |
| Accessors.ParameterTypes | src/DocPluck/Parser/DocsPEParser.cs:407 | the parameter types, one per parameter in order |
| Accessors.ParametersEqualsIsZip | src/DocPluck/Parser/DocsPEParser.cs:405-408 | with Equals as the comparison, ParametersEquals is the prefix-wise comparison of the two type lists |
| Accessors.ParametersEqualsCommonPrefix | src/DocPluck/Parser/DocsPEParser.cs:405-408 | Zip stops at the shorter list, so parameters past the common prefix on either side never change the answer |
| Accessors.FirstMatching | src/DocPluck/Parser/DocsPEParser.cs:416-417 | the first method with the name whose parameters agree with the index parameters, the end when none does; earlier same-named methods disagree; a comparison that throws propagates |
| Accessors.At | src/DocPluck/Parser/DocsPEParser.cs:416-417 | the method at a found index, null for the end of the list |
| Accessors.FirstNamedWithout | src/DocPluck/Parser/DocsPEParser.cs:438-439 | removing a method of another name does not change which method of a name is found first |
| Accessors.FirstNamedPrefix | src/DocPluck/Parser/DocsPEParser.cs:402 | a first match before the removed slot stays where it was |
| Accessors.FirstNamedShift | src/DocPluck/Parser/DocsPEParser.cs:402 | a first match after the removed slot moves down by one |
| Accessors.RemoveFirstNamed | src/DocPluck/Parser/DocsPEParser.cs:398-402 | List.Remove of the first method of a name removes exactly that slot |
| Accessors.WithoutSubsequence | src/DocPluck/Parser/DocsPEParser.cs:402 | List.Remove keeps the order of what it leaves |
| Accessors.SkipOneSubsequence | src/DocPluck/Parser/DocsPEParser.cs:402 | dropping one slot leaves a subsequence |
| Accessors.SubsequenceTransitive | src/DocPluck/Parser/DocsPEParser.cs:410-452 | a subsequence of a subsequence is a subsequence |
| Accessors.SubsequenceMembers | src/DocPluck/Parser/DocsPEParser.cs:410-452 | every element of a subsequence comes from the longer list |
| Accessors.WithoutIf | src/DocPluck/Parser/DocsPEParser.cs:419-422 | a null accessor leaves the list alone, any other is removed |
| Accessors.RemoveSpecialMethod | src/DocPluck/Parser/DocsPEParser.cs:396-403 | the first method of the name, when it is SpecialName, is handed back and leaves the method list; otherwise the list is unchanged and null is handed back |
| Accessors.RemoveSpecialPair | src/DocPluck/Parser/DocsPEParser.cs:438-439 | two calls for different names find both accessors as in the list before either call, and remove exactly those |
| Accessors.MergePlainProperty | src/DocPluck/Parser/DocsPEParser.cs:436-440 | get_Name and set_Name, each the first of its name when SpecialName, become the property's getter and setter and leave the method list |
| Accessors.MergeIndexer | src/DocPluck/Parser/DocsPEParser.cs:414-435 | get_Item and set_Item are the first methods whose parameters agree with the index parameters, looked up before either is removed; they become the accessors and leave the list; the index parameters become the getter's, or the setter's first ones |
| Accessors.MergeEvent | src/DocPluck/Parser/DocsPEParser.cs:447-451 | add_Name and remove_Name, each the first of its name when SpecialName, become the event's accessors and leave the method list |
| Accessors.WithoutIfPair | src/DocPluck/Parser/DocsPEParser.cs:419-422 | removing up to two nodes keeps the order of the rest and removes nothing else |
| Accessors.WithoutIfKeeps | src/DocPluck/Parser/DocsPEParser.cs:419-422 | removing one node keeps every other node that was in the list |
| Accessors.WithoutIfPairCount | src/DocPluck/Parser/DocsPEParser.cs:419-422 | removing two different accessors takes exactly one occurrence of each out of the list |
| Accessors.FirstNamedInAgrees | src/DocPluck/Parser/DocsPEParser.cs:398 | the first-of-its-name lookup on a snapshot of the method names finds the index FirstOrDefault finds on the live nodes |
| Accessors.SpecialAccessorInAgrees | src/DocPluck/Parser/DocsPEParser.cs:398-400 | the accessor found on the snapshot is the one RemoveSpecialMethod hands to its callback |
| Accessors.ParametersEqualsInAgrees | src/DocPluck/Parser/DocsPEParser.cs:405-408 | ParametersEquals on a snapshot of the parameter types gives the same answer, or the same NullReference, as on the live nodes |
| Accessors.FirstMatchingInAgrees | src/DocPluck/Parser/DocsPEParser.cs:416-417 | the get_Item and set_Item lookups on the snapshot find the same index, or throw in the same way, as FirstOrDefault on the live nodes |
| Accessors.MergeProperty | src/DocPluck/Parser/DocsPEParser.cs:412-441 | one turn of the property loop does what PropertyStep computes from the state before it: afterwards the method list and every property's getter, setter and index parameters are those of the step, and it throws NullReference exactly when the step stops the pass |
| Accessors.RemovePropertyMethods | src/DocPluck/Parser/DocsPEParser.cs:410-443 | afterwards the method list and every property's getter, setter and index parameters are those of the fold of PropertyStep over the properties, computed from the type as it was before the call; NullReference is thrown exactly when a comparison threw, the later properties then being skipped; methods only leave the list, the rest keep their order, and each one that left is an accessor of some property |
| Accessors.RemoveEventMethods | src/DocPluck/Parser/DocsPEParser.cs:445-452 | afterwards the method list and every event's add and remove accessors are those of the fold of EventStep over the events, computed from the type as it was before the call; methods only leave the list, the rest keep their order, and each one that left is a SpecialName add_ or remove_ method of some event |
| Accessors.EventStepShrinks | src/DocPluck/Parser/DocsPEParser.cs:449-450 | one event only takes methods out of the list, keeping the order of the rest, and only SpecialName add_ or remove_ methods named after that event |
| Accessors.EventStepMoves | src/DocPluck/Parser/DocsPEParser.cs:449-450 | a present accessor is moved: the first add_Name (remove_Name), when SpecialName, becomes the event's add (remove) accessor and one occurrence of it leaves the list; without one the accessor stays as it was; other events keep theirs |
| Accessors.EventPassShrinks | src/DocPluck/Parser/DocsPEParser.cs:447-451 | the event loop over any prefix of the events only takes methods out of the list and keeps the order of the rest |
| Accessors.EventPassRemoves | src/DocPluck/Parser/DocsPEParser.cs:447-451 | each method the event loop took out is a SpecialName add_ or remove_ method named after an event it visited |
| Accessors.KeysNameRemoved | src/DocPluck/Parser/DocsPEParser.cs:447-451 | the removed-accessor fact stated on the snapshot holds of the live method nodes |
| Accessors.EventTrace | src/DocPluck/Parser/DocsPEParser.cs:447-451 | the states after each prefix of the event loop: state i is the pass over the first i events |
| Accessors.EventTraceSteps | src/DocPluck/Parser/DocsPEParser.cs:447-451 | consecutive states of the event trace differ by exactly one EventStep, for the event visited at that turn |
| Accessors.EventPassEffects | src/DocPluck/Parser/DocsPEParser.cs:445-452 | the whole event loop only removes methods, keeps the order of the rest, and removes only accessors of its events |
| Accessors.MergeEventStep | src/DocPluck/Parser/DocsPEParser.cs:449-450 | one turn of the event loop on the nodes does what EventStep computes: the method list and every event's accessors become those of the step |
| Accessors.MergeEventTrace | src/DocPluck/Parser/DocsPEParser.cs:447-451 | the event loop on the nodes follows the trace: after it the method list and every event's accessors are those of its last state |
| Accessors.MergeEvents | src/DocPluck/Parser/DocsPEParser.cs:447-451 | the event loop leaves the state of the fold over all events, having only removed accessors of its events and kept the order of the rest |
| Accessors.PlainStepMoves | src/DocPluck/Parser/DocsPEParser.cs:438-439 | a present accessor of a plain property is moved: the first get_Name (set_Name), when SpecialName, becomes the getter (setter) and one occurrence of it leaves the list; without one the accessor stays; the index parameters and every other property are kept |
| Accessors.IndexerStepMoves | src/DocPluck/Parser/DocsPEParser.cs:416-422 | an indexer takes the get_Item and set_Item the lookups found, or null, as its getter and setter, and one occurrence of each found method leaves the list; a lookup that throws stops the pass with the list as it was; other properties keep their accessors |
| Accessors.PropertyStepShrinks | src/DocPluck/Parser/DocsPEParser.cs:414-440 | one property only takes methods out of the list, keeping the order of the rest, and only get_Item or set_Item methods or SpecialName get_ or set_ methods named after it |
| Accessors.PropertyAdvanceShrinks | src/DocPluck/Parser/DocsPEParser.cs:412-441 | the same holds for a turn after a throw, which changes nothing |
| Accessors.PropertyPassShrinks | src/DocPluck/Parser/DocsPEParser.cs:412-442 | the property loop over any prefix of the properties only takes methods out of the list and keeps the order of the rest |
| Accessors.PropertyPassRemoves | src/DocPluck/Parser/DocsPEParser.cs:412-442 | each method the property loop took out is an accessor of a property it visited |
| Accessors.KeysPropertyNameRemoved | src/DocPluck/Parser/DocsPEParser.cs:412-442 | the removed-accessor fact stated on the snapshot holds of the live method nodes |
| Accessors.PropertyTrace | src/DocPluck/Parser/DocsPEParser.cs:412-442 | the states after each prefix of the property loop: state i is the pass over the first i properties |
| Accessors.TraceStep | src/DocPluck/Parser/DocsPEParser.cs:412-442 | consecutive states of the property trace differ by exactly one turn for the property visited then |
| Accessors.TraceSteps | src/DocPluck/Parser/DocsPEParser.cs:412-442 | every pair of consecutive states of the property trace differs by one turn |
| Accessors.TraceStaysStopped | src/DocPluck/Parser/DocsPEParser.cs:412-442 | once a comparison has thrown, the remaining turns change nothing, so the last state is the one in which it threw |
| Accessors.PropertyPassEffects | src/DocPluck/Parser/DocsPEParser.cs:410-443 | the whole property loop only removes methods, keeps the order of the rest, and removes only accessors of its properties |
| Accessors.MergeIndexerStep | src/DocPluck/Parser/DocsPEParser.cs:414-435 | the indexer branch on the nodes does what IndexerStep computes from the two lookups: the method list and every property's accessors become those of the step, and it throws NullReference exactly when a lookup threw |
| Accessors.MergePlainStep | src/DocPluck/Parser/DocsPEParser.cs:436-440 | the plain-property branch on the nodes does what PlainStep computes: the method list and every property's accessors become those of the step |
| Accessors.MergeTraceStep | src/DocPluck/Parser/DocsPEParser.cs:412-441 | one turn of the property loop before any throw moves the nodes to the next state of the trace, and throws exactly when that state is stopped |
| Accessors.MergePropertyTrace | src/DocPluck/Parser/DocsPEParser.cs:412-442 | the property loop on the nodes follows the trace up to its first throw: afterwards the method list and every property's accessors are those of the last state, and it threw exactly when that state is stopped |
| Accessors.MergeProperties | src/DocPluck/Parser/DocsPEParser.cs:412-442 | the property loop leaves the state of the fold over all properties, throwing exactly when it stopped, having only removed accessors of its properties and kept the order of the rest |
| Accessors.InputsGivePasses | src/DocPluck/Parser/DocsPEParser.cs:462-466 | inputs that record a type as it is give the property pass of the type and the event pass on the method list the property pass leaves |
| Accessors.ViewMoved | src/DocPluck/Parser/DocsPEParser.cs:462-466 | a type shows the method list and accessors of the two pass outcomes exactly when those outcomes have moved its accessors |
| Accessors.ViewStopped | src/DocPluck/Parser/DocsPEParser.cs:412-442 | after a property pass that threw, a type shows what that pass moved exactly when its properties reflect the pass and its events keep their accessors |
| Accessors.RemoveTypeAccessors | src/DocPluck/Parser/DocsPEParser.cs:462-466 | one turn of the loop over the types: the property pass, then unless it throws the event pass on the list it left; it throws exactly when the property pass does, and the type then shows what that pass moved, with its events untouched |
| Accessors.PassType | src/DocPluck/Parser/DocsPEParser.cs:462-466 | the turn on a type whose recorded inputs it still shows leaves the view planned from those inputs, throwing exactly when the planned property pass stopped |
| Accessors.TurnOn | src/DocPluck/Parser/DocsPEParser.cs:462-466 | the turn on one type of the list leaves every other type showing what it showed, because each type owns its properties and events |
| Accessors.KeptTurn | src/DocPluck/Parser/DocsPEParser.cs:462-466 | a turn keeps, for every type, the parts of its inputs that the passes do not write |
| Accessors.RemoveTurn | src/DocPluck/Parser/DocsPEParser.cs:462-466 | one turn at index i: the types before i keep the views their turns left, type i takes the view of its own turn, and the types after i are untouched |
| Accessors.PlanOne | src/DocPluck/Parser/DocsPEParser.cs:462-466 | the inputs, the pass outcomes and the view of one turn, computed from a type as it is |
| Accessors.Plan | src/DocPluck/Parser/DocsPEParser.cs:462-466 | the inputs, pass outcomes and views of the turns on a whole list of types, one per type, each computed from the type as it is |
| Accessors.RemoveEach | src/DocPluck/Parser/DocsPEParser.cs:462-466 | the loop over the types, stopping at the first property pass that throws: the types before it show both passes, it shows what its property pass moved, the types after it are untouched |
| Accessors.Moved | src/DocPluck/Parser/DocsPEParser.cs:462-466 | the types whose turns completed have had both passes move their accessors |
| Accessors.Stopped | src/DocPluck/Parser/DocsPEParser.cs:412-442 | the type whose property pass threw keeps what that pass moved, and its events keep their accessors |
| Accessors.RemoveAccessors | src/DocPluck/Parser/DocsPEParser.cs:462-466 | the loop over distinct types that own their members: the inputs it records are each type's state before the loop; the types before the first throw have both passes done, the type that threw keeps what its property pass moved, the types after it are as they were |
| Accessors.RunAccessorPasses | src/DocPluck/Parser/DocsPEParser.cs:462-466 | the loop as the parser sees it: the recorded inputs are the types' state before it; a throw gives NullReference, and otherwise every type holds what both passes compute from its inputs |
| Constants.EncodeLittleEndian | src/DocPluck/Parser/DocsPEParser.cs:65-74 | the little-endian encoding of a value has exactly the requested number of bytes |
| Constants.DecodeBlob | src/DocPluck/Parser/DocsPEParser.cs:63-79 | a blob shorter than its type's width fails, with IndexOutOfRange for the two one-byte codes (defValue[0]) and ArgumentOutOfRange from BitConverter for the others |
| Constants.GetConstant | src/DocPluck/Parser/DocsPEParser.cs:45-81 | a nil handle or a NullReference constant gives no value; an unknown code gives a null value; otherwise a value, failing exactly when the blob is too short for the code |
| Constants.LittleEndianBound | src/DocPluck/Parser/DocsPEParser.cs:65-74 | a little-endian value fits its byte count |
| Constants.DecodeEncode | src/DocPluck/Parser/DocsPEParser.cs:65-74 | reading back an encoding gives the value |
| Constants.EncodeDecode | src/DocPluck/Parser/DocsPEParser.cs:65-74 | encoding the value read from bytes gives the bytes back |
| Constants.SignedUnsigned | src/DocPluck/Parser/DocsPEParser.cs:65-74 | two's complement reading undoes the bit pattern of an in-range signed value |
| Constants.IntegerRoundTrip | src/DocPluck/Parser/DocsPEParser.cs:45-81 | a constant written for an in-range integer of a signed or unsigned code reads back as that integer, whatever bytes follow |
| Constants.BoolCharRoundTrip | src/DocPluck/Parser/DocsPEParser.cs:66-67 | the byte 1 reads as true and 0 as false; a UTF-16 unit reads as itself |
| Constants.DecodedInRange | src/DocPluck/Parser/DocsPEParser.cs:65-74 | every decoded integer lies in the range of its code |
| Reflection.AssemblyInfo.constructor | src/DocPluck/Reflection/DocsAssemblyInfo.cs:10-29 | an assembly node starts with its name, no module and no custom attributes |
| Reflection.ModuleInfo.constructor | src/DocPluck/Reflection/DocsModuleInfo.cs:9-28 | a module node starts with its name, no assembly and no custom attributes |
| Reflection.NamespaceInfo.constructor | src/DocPluck/Reflection/DocsNamespaceInfo.cs:25-62 | a namespace node starts unparsed: no name, parent, types, exported types, child namespaces or documentation |
| Reflection.ParameterInfo.constructor | src/DocPluck/Reflection/DocsParameterInfo.cs:25-81 | a parameter starts with its name, attributes and type, and without a default value |
| Reflection.MethodInfo.constructor | src/DocPluck/Parser/DocsPEParser.cs:134-141 | a method node starts with its name, declaring type and attributes, no generic arguments, parameters, return type or documentation |
| Reflection.MethodInfo.Level | src/DocPluck/Reflection/DocsMethodBase.cs:79-85 | a method's accessibility is Unknown exactly for the two access values the chain of tests does not name |
| Reflection.MethodInfo.IsConstructor | src/DocPluck/Reflection/DocsMethodBase.cs:36 | only a non-static constructor node counts as a constructor |
| Reflection.PropertyInfo.constructor | src/DocPluck/Parser/DocsPEParser.cs:89-101 | a property node starts with its name, declaring type, type and index parameters, and without accessors |
| Reflection.EventInfo.constructor | src/DocPluck/Parser/DocsPEParser.cs:107-113 | an event node starts with its name, declaring type and handler type, and without accessors |
| Reflection.EventInfo.Level | src/DocPluck/Reflection/DocsEventInfo.cs:44 | an event's accessibility is the add accessor's, else the remove accessor's, else Unknown |
| Reflection.FieldInfo.constructor | src/DocPluck/Parser/DocsPEParser.cs:209-216 | a field node starts with its name, declaring type, type and attributes, and no enum value |
| Reflection.FieldInfo.Level | src/DocPluck/Reflection/DocsFieldInfo.cs:46-52 | a field's accessibility is Unknown exactly for the two access values the chain of tests does not name |
| Reflection.TypeInfo.constructor | src/DocPluck/Reflection/DocsTypeInfo.cs:29-240 | new DocsTypeInfo() has every field at its default and every list empty |
| Reflection.TypeInfo.Instantiation | src/DocPluck/Reflection/DocsTypeInfo.cs:29-240 | the node GetGenericInstantiation fills: the open type's fields and lists, the given name and namespace, and the supplied arguments |
| Reflection.TypeInfo.Kind | src/DocPluck/Reflection/DocsTypeInfo.cs:37-52 | Interface exactly when the Interface flag is set, and Class otherwise, since the Class flag is zero and HasFlag(Class) always holds |
| Reflection.TypeInfo.Level | src/DocPluck/Reflection/DocsTypeInfo.cs:247-253 | every visibility value names a level, so a type's accessibility is never Unknown |
| Reflection.EqualsReflexive | src/DocPluck/Reflection/DocsTypeInfo.cs:342-368 | every type node equals itself |
| Reflection.EqualsSymmetric | src/DocPluck/Reflection/DocsTypeInfo.cs:342-379 | Equals is symmetric |
| Reflection.ListsSymmetric | src/DocPluck/Reflection/DocsTypeInfo.cs:370-379 | CompareTypes is symmetric |
| Reflection.CompareTypesIgnoresExtraArguments | src/DocPluck/Reflection/DocsTypeInfo.cs:370-379 | argument lists are compared on their common prefix only, so [x] matches [x, y] both ways |
| Reflection.NameWithin | src/DocPluck/Reflection/DocsTypeInfo.cs:255-259 | the recursive Name getter, failing only with StackOverflow when the element chain is too deep |
| Reflection.NamespaceWithin | src/DocPluck/Reflection/DocsTypeInfo.cs:264-268 | the recursive Namespace getter, failing only with StackOverflow |
| Reflection.FullNameWithin | src/DocPluck/Reflection/DocsTypeInfo.cs:245 | the recursive FullName getter, failing only with StackOverflow |
| Reflection.IsEnumWithin | src/DocPluck/Reflection/DocsTypeInfo.cs:74 | the IsEnum getter, failing only with StackOverflow |
| Reflection.NameWithinAgrees | src/DocPluck/Reflection/DocsTypeInfo.cs:255-268 | on an acyclic element chain the getters give the element's name and namespace with the pointer, by-ref and array marks |
| Reflection.FullNameWithinAgrees | src/DocPluck/Reflection/DocsTypeInfo.cs:245 | on an acyclic graph FullName is the declaring type's full name or the namespace, a dot, and the name |
| Reflection.IsEnumWithinAgrees | src/DocPluck/Reflection/DocsTypeInfo.cs:74 | on an acyclic base chain IsEnum holds exactly for an external base type System.Enum |
| Reflection.SameNamesAgrees | src/DocPluck/Reflection/DocsTypeInfo.cs:345-346 | the namespace and name comparisons of Equals are the comparisons of the two getters |
| Reflection.EqualsWithinAgrees | src/DocPluck/Reflection/DocsTypeInfo.cs:342-368 | on an acyclic graph the recursive comparison terminates and is Equals |
| Reflection.CompareTypesWithinAgrees | src/DocPluck/Reflection/DocsTypeInfo.cs:370-379 | on an acyclic graph the recursive list comparison is CompareTypes: both null match, one null fails, otherwise the common prefix is compared |
| Reflection.ZipEqualsWithinAgrees | src/DocPluck/Reflection/DocsTypeInfo.cs:378 | Zip and All over two lists is the prefix-wise Equals of the lists |
| TypeFlags.Level | src/DocPluck/Reflection/DocsTypeInfo.cs:247-253 | the first test of the chain that holds decides the level: Public for Public and NestedPublic, Internal for NotPublic and NestedAssembly, and so on; never Unknown |
| TypeFlags.LevelDependsOnVisibility | src/DocPluck/Reflection/DocsTypeInfo.cs:247-253 | only the three visibility bits decide a type's accessibility |
| TypeFlags.ExactlyOneVisibility | src/DocPluck/Reflection/DocsTypeInfo.cs:287-309 | exactly one of the eight visibility tests holds for any attribute word, IsNestedFamORAssem comparing against the whole mask |
| TypeFlags.LayoutTestsExclusive | src/DocPluck/Reflection/DocsTypeInfo.cs:311-327 | at most one layout test and at most one string-format test holds |
| TypeFlags.VisibilityTests | src/DocPluck/Reflection/DocsTypeInfo.cs:288-309 | each of the eight visibility tests holds exactly for its own value of the visibility bits, and writing those bits leaves the others as they were |
| TypeFlags.BitTests | src/DocPluck/Reflection/DocsTypeInfo.cs:273-282 | IsAbstract, IsImport, IsSealed and IsSpecialName hold once their bit is set, and setting those bits leaves the visibility as it was |
| TypeFlags.LayoutTests | src/DocPluck/Reflection/DocsTypeInfo.cs:312-318 | each layout test holds exactly for its own value of the two layout bits |
| TypeFlags.StringFormatTests | src/DocPluck/Reflection/DocsTypeInfo.cs:321-327 | each string-format test holds exactly for its own value of the two string-format bits |
| TypeFlags.IsClassMeansClassKind | src/DocPluck/Reflection/DocsTypeInfo.cs:285 | IsClass holds exactly for a reference type whose Kind is Class |
| FlagBits.SetClear | src/DocPluck/Reflection/DocsParameterInfo.cs:66-78 | a `(attrs & flag) > 0` test succeeds once the flag is set and fails once it is cleared |
| TypeFlags.Kind | src/DocPluck/Reflection/DocsTypeInfo.cs:37-52 | Interface exactly when the interface bit is set, Class otherwise |
| TypeFlags.KindIsClassOrInterface | src/DocPluck/Reflection/DocsTypeInfo.cs:41-50 | HasFlag(Class) tests the zero flag and always holds, so Delegate, Enum and Struct are never the kind |
| MethodFlags.AtMostOneAccess | src/DocPluck/Reflection/DocsMethodBase.cs:54-69 | at most one access test holds, and none exactly for the access values 0 and 7 |
| MethodFlags.AccessTests | src/DocPluck/Reflection/DocsMethodBase.cs:54-69 | each of the six access tests holds exactly for its own value of the access bits |
| MethodFlags.BitTests | src/DocPluck/Reflection/DocsMethodBase.cs:33-51 | IsAbstract, IsFinal, IsHideBySig, IsSpecialName, IsStatic and IsVirtual hold once their bit is set, and setting them leaves the access bits as they were |
| MethodFlags.ConstructorTest | src/DocPluck/Reflection/DocsMethodBase.cs:36 | a static method is never a constructor; a non-static constructor node with RTSpecialName is |
| MethodFlags.Level | src/DocPluck/Reflection/DocsMethodBase.cs:79-85 | Public, Internal, Private, Protected, PrivateProtected and ProtectedInternal each for exactly their access value, Unknown when no test holds |
| FieldFlags.AtMostOneAccess | src/DocPluck/Reflection/DocsFieldInfo.cs:75-90 | at most one of the six field access tests holds |
| FieldFlags.AccessTests | src/DocPluck/Reflection/DocsFieldInfo.cs:75-90 | each of the six field access tests holds exactly for its own value of the access bits |
| FieldFlags.BitTests | src/DocPluck/Reflection/DocsFieldInfo.cs:57-72 | IsInitOnly, IsLiteral, IsNotSerialized, IsPinvokeImpl, IsSpecialName and IsStatic hold once their bit is set, and setting them leaves the access bits as they were |
| FieldFlags.Level | src/DocPluck/Reflection/DocsFieldInfo.cs:46-52 | a field's accessibility is Unknown exactly for the access values 0 and 7 |
| FieldFlags.LevelAgreesWithMethods | src/DocPluck/Reflection/DocsFieldInfo.cs:46-52 | fields and methods share the access encoding, so their levels agree word for word |
| ParameterFlags.SetInKeepsOut | src/DocPluck/Reflection/DocsParameterInfo.cs:66-78 | setting the In bit makes IsIn hold and leaves IsOut as it was |
| ParameterFlags.BitTests | src/DocPluck/Reflection/DocsParameterInfo.cs:66-78 | IsIn, IsOut, IsLcid, IsRetval and IsOptional each hold once their bit is set |
| ParameterFlags.ZeroHasNoFlags | src/DocPluck/Reflection/DocsParameterInfo.cs:66-78 | a zero attribute word passes none of the parameter tests |
| Accessibility.Keyword | src/DocPluck/Reflection/DocsAccessibilityHelper.cs:30-42 | the keyword of a level, "???" exactly for Unknown |
| Accessibility.KeywordInjective | src/DocPluck/Reflection/DocsAccessibilityHelper.cs:30-42 | distinct levels print differently |
| Accessibility.Rank | src/DocPluck/Reflection/DocsAccessibilityHelper.cs:44-56 | ranks run 0 to 4; Private alone ranks 4; Public and Unknown rank 0 |
| Accessibility.StrictOrder | src/DocPluck/Reflection/DocsAccessibilityHelper.cs:68-71 | IsMoreRestrictive is irreflexive, asymmetric and transitive |
| Accessibility.Incomparable | src/DocPluck/Reflection/DocsAccessibilityHelper.cs:44-71 | two levels are incomparable exactly when they share a rank, as Internal and Protected do |
| Accessibility.Extremes | src/DocPluck/Reflection/DocsAccessibilityHelper.cs:44-71 | nothing is more restrictive than Private, Public and Unknown are more restrictive than nothing, and Private is more restrictive than every other level |
| TypeMembers.AddMembers | src/DocPluck/Parser/DocsPEParser.cs:227-269 | the parsed lists are appended to the type's lists and its header is unchanged |
| TypeMembers.SetTypeLists | src/DocPluck/Parser/DocsPEParser.cs:227-244 | the interface, property, nested-type and event lists are stored and nothing else changes |
| TypeMembers.SetMethodLists | src/DocPluck/Parser/DocsPEParser.cs:247-269 | the method, constructor and field lists and the enum's underlying type are stored and the header is unchanged |
| TypeMembers.SetNames | src/DocPluck/Parser/DocsPEParser.cs:332-334 | the name, namespace and attributes are set and the member lists stay |
| TypeMembers.SetLinks | src/DocPluck/Parser/DocsPEParser.cs:335-338 | the declaring type, generic arguments and base type are set, and the node is a generic definition exactly when it has generic arguments |
| TypeMembers.SetOrigin | src/DocPluck/Parser/DocsPEParser.cs:340-342 | the custom attributes, assembly and module are set and the member lists stay |
| TypeMembers.SetHeader | src/DocPluck/Parser/DocsPEParser.cs:332-342 | every header assignment of ParseType, with the member lists untouched |
| Metadata.TypeDefinitionAt | src/DocPluck/Parser/DocsPEParser.cs:317 | a TypeDef row exists exactly for a row number within the table; any other is a bad image |
| TypeDebugPrinter.VariancePrefix | src/DocPluck.Debug/TypeDebugPrinter.cs:21-27 | "out " exactly for covariant, "in " exactly for contravariant, empty otherwise |
| TypeDebugPrinter.VarianceOnlyBits | src/DocPluck.Debug/TypeDebugPrinter.cs:21-27 | only the variance bits decide the prefix |
| TypeDebugPrinter.ParameterNames | src/DocPluck.Debug/TypeDebugPrinter.cs:31 | each generic parameter of a definition prints as its variance prefix and its name, in order |
| TypeDebugPrinter.DisplayNames | src/DocPluck.Debug/TypeDebugPrinter.cs:36 | the arguments of a constructed type print as their display names, in order |
| TypeDebugPrinter.Occurrences | src/DocPluck.Debug/TypeDebugPrinter.cs:12-39 | a character occurs at most once per position, and zero times exactly when absent |
| TypeDebugPrinter.OccurrencesAppend | src/DocPluck.Debug/TypeDebugPrinter.cs:12-39 | occurrences add up over concatenation |
| TypeDebugPrinter.JoinBalanced | src/DocPluck.Debug/TypeDebugPrinter.cs:31-36 | joining balanced parts with ", " gives a balanced string |
| TypeDebugPrinter.DisplayNameBalanced | src/DocPluck.Debug/TypeDebugPrinter.cs:12-39 | with plain names, every '<' a display name opens is closed by a '>' |
| TypeDebugPrinter.DisplayName | src/DocPluck.Debug/TypeDebugPrinter.cs:12-39 | a generic parameter prints as its name; any other type starts with its full name, and a generic one continues with '<' and ends with '>' |
| TypeDebugPrinter.ParameterText | src/DocPluck.Debug/TypeDebugPrinter.cs:70-89 | a parameter prints as its head, then " = " and its default, or "null", when it has one |
| TypeDebugPrinter.ParametersStringSnoc | src/DocPluck.Debug/TypeDebugPrinter.cs:68-91 | no parameters print nothing, and one more adds ", " and its text |
| TypeDebugPrinter.ParametersString | src/DocPluck.Debug/TypeDebugPrinter.cs:68-91 | no parameters print "", one prints its own text, several start with the first one's text and ", " |
| TypeDebugPrinter.SpecialKeyword | src/DocPluck.Debug/TypeDebugPrinter.cs:154-166 | "class" or "struct" only when the special-constraint bits are exactly that one flag |
| TypeDebugPrinter.ConstraintItems | src/DocPluck.Debug/TypeDebugPrinter.cs:154-179 | a parameter lists its special keyword, its type constraints and "new()", as many items as apply |
| TypeDebugPrinter.ConstraintItemsOrder | src/DocPluck.Debug/TypeDebugPrinter.cs:154-179 | the keyword comes first and "new()" last, which only a lone DefaultConstructor flag prints |
| TypeDebugPrinter.Clauses | src/DocPluck.Debug/TypeDebugPrinter.cs:129-181 | at most one clause per generic parameter |
| TypeDebugPrinter.Separator | src/DocPluck.Debug/TypeDebugPrinter.cs:136-152 | ", " between the constraints of one parameter; before its first, " where T : ", preceded by ", " unless it is the first clause |
| TypeDebugPrinter.WriteConstraint | src/DocPluck.Debug/TypeDebugPrinter.cs:168-172 | one constraint written after its separator extends the clause being written by that item |
| TypeDebugPrinter.WriteClause | src/DocPluck.Debug/TypeDebugPrinter.cs:132-180 | a parameter without constraints writes nothing; otherwise its clause, after ", " unless it is the first |
| TypeDebugPrinter.WhereClauses | src/DocPluck.Debug/TypeDebugPrinter.cs:129-181 | the where-clause loop writes the clauses of the constrained parameters joined by ", " |
| TypeDebugPrinter.FirstInvoke | src/DocPluck.Debug/TypeDebugPrinter.cs:104 | First finds the first method named Invoke, and fails exactly when there is none |
| TypeDebugPrinter.DelegateLine | src/DocPluck.Debug/TypeDebugPrinter.cs:102-110 | a delegate without an Invoke method throws InvalidOperation, and only then |
| TypeDebugPrinter.DelegateLineShape | src/DocPluck.Debug/TypeDebugPrinter.cs:104-108 | the delegate line is the keyword, the Invoke return type, the delegate's display name, and the Invoke parameters in parentheses followed by ";" |
| HeadingRenderer.HeadingText | src/SampSharp.Documentation/Markdown/Renderers/CustomHeadingRenderer.cs:40-42 | levels 1 to 6 give "h1" to "h6"; any other level gives "<h" followed by the level's digits |
| HeadingRenderer.HeadingTextsDistinct | src/SampSharp.Documentation/Markdown/Renderers/CustomHeadingRenderer.cs:28-42 | the six heading tags are distinct and start with 'h' |
| HeadingRenderer.DropMarks | src/SampSharp.Documentation/Markdown/Renderers/CustomHeadingRenderer.cs:116-122 | the builder keeps exactly the characters that are not non-spacing marks, never growing the text |
| HeadingRenderer.DropMarksAppend | src/SampSharp.Documentation/Markdown/Renderers/CustomHeadingRenderer.cs:116-122 | dropping marks from a concatenation drops them from each part, which is what lets the loop build the result one character at a time |
| HeadingRenderer.DropMarksIdempotent | src/SampSharp.Documentation/Markdown/Renderers/CustomHeadingRenderer.cs:116-122 | a text without marks passes through the filter unchanged, so filtering twice is filtering once |
| HeadingRenderer.NormalizeString | src/SampSharp.Documentation/Markdown/Renderers/CustomHeadingRenderer.cs:108-125 | null stays null and only null gives null; otherwise the lower-cased value is decomposed, stripped of its non-spacing marks by the loop, and recomposed |
| HeadingRenderer.Spaced | src/SampSharp.Documentation/Markdown/Renderers/CustomHeadingRenderer.cs:87-93 | the builder keeps every letter or digit in place and puts a space for every other character, length unchanged |
| HeadingRenderer.CollapseSpaces | src/SampSharp.Documentation/Markdown/Renderers/CustomHeadingRenderer.cs:96 | the replacement leaves no space, is empty only for an empty input, and starts with '-' exactly when the input starts with a space |
| HeadingRenderer.CollapseSingleDashes | src/SampSharp.Documentation/Markdown/Renderers/CustomHeadingRenderer.cs:96 | on a text without '-', no two dashes of the replacement are adjacent |
| HeadingRenderer.CollapseKeepsText | src/SampSharp.Documentation/Markdown/Renderers/CustomHeadingRenderer.cs:96 | on a text without '-', the replacement minus its dashes is the input minus its spaces |
| HeadingRenderer.EscapeName | src/SampSharp.Documentation/Markdown/Renderers/CustomHeadingRenderer.cs:80-100 | the escape loop computes the escaped name: null and empty names unchanged, others normalised, spaced and collapsed |
| HeadingRenderer.EscapedNameIsSlug | src/SampSharp.Documentation/Markdown/Renderers/CustomHeadingRenderer.cs:80-100 | an escaped non-empty name has no space, no double dash, and its non-dash characters are the letters and digits of the normalised name in order |
| StorageKeys.BranchNameToPathString | src/SampSharp.Documentation/Services/NewDocsImportService.cs:43-46 | null stays null; the escape leaves no '/' or '\\' and is the identity on a name without them |
| StorageKeys.EscapeCollides | src/SampSharp.Documentation/Services/NewDocsImportService.cs:43-46 | "a/b" and "a---b" escape alike, as do "\\" and "/--" |
| StorageKeys.NewKey | src/SampSharp.Documentation/Services/StorageKey.cs:9-12 | a null key path throws ArgumentNull, any other is kept |
| StorageKeys.EscapeVersion | src/SampSharp.Documentation/Services/StorageKey.cs:14-17 | the escaped version has no separators and no upper-case letter |
| StorageKeys.CheckArguments | src/SampSharp.Documentation/Services/StorageKey.cs:21-22 | a null version is reported first, then a null name; no error exactly when both are given |
| StorageKeys.ForDocumentationData | src/SampSharp.Documentation/Services/StorageKey.cs:19-25 | the key is the version's directory followed by the name and ".json"; the null checks come first |
| StorageKeys.ForDocumentationAsset | src/SampSharp.Documentation/Services/StorageKey.cs:27-33 | the key is the version's directory followed by the bare name |
| StorageKeys.ForDocumentationAssetMeta | src/SampSharp.Documentation/Services/StorageKey.cs:35-41 | the key is the asset key with ".asset" appended |
| StorageKeys.KeyPathInjective | src/SampSharp.Documentation/Services/StorageKey.cs:24-40 | a key path determines its directory segment and name |
| StorageKeys.DataKeyInjective | src/SampSharp.Documentation/Services/StorageKey.cs:19-25 | equal data keys have equal escaped versions and names |
| StorageKeys.ForDocumentationVersion | src/SampSharp.Documentation/Services/StorageKey.cs:43-48 | "docs/" followed by the version exactly as given; null throws |
| StorageKeys.VersionKeyMissesDataKeys | src/SampSharp.Documentation/Services/StorageKey.cs:43-48 | for a version starting with a capital letter, the version directory does not contain its own data keys |
| StorageKeys.ForEscapedDocumentationVersion | src/SampSharp.Documentation/Services/StorageKey.cs:43-48 | the corrected version key names exactly the directory the other keys are built in |
| StorageKeys.EscapedVersionKeyHoldsKeys | src/SampSharp.Documentation/Services/StorageKey.cs:19-48 | every data, asset and asset-meta key of a version lies under the corrected version directory |
| StorageKeys.VersionKeysAgree | src/SampSharp.Documentation/Services/StorageKey.cs:43-48 | both version keys agree on a lower-case version without separators |
| MenuTree.NonEmpty | src/SampSharp.Documentation/Services/MenuTreeBuilder.cs:38 | RemoveEmptyEntries keeps only non-empty pieces, each taken from the split |
| MenuTree.NonEmptyAppend | src/SampSharp.Documentation/Services/MenuTreeBuilder.cs:38 | dropping empty pieces distributes over concatenation |
| MenuTree.Segments | src/SampSharp.Documentation/Services/MenuTreeBuilder.cs:38 | every path segment is non-empty and has no '/' |
| MenuTree.SegmentsSingle | src/SampSharp.Documentation/Services/MenuTreeBuilder.cs:38 | a path without '/' is one segment, or none when empty |
| MenuTree.SegmentsAround | src/SampSharp.Documentation/Services/MenuTreeBuilder.cs:38 | the segments of a + "/" + b are those of a followed by those of b |
| MenuTree.ChildIndex | src/SampSharp.Documentation/Services/MenuTreeBuilder.cs:40 | FirstOrDefault finds the first entry with that UriPart, or none |
| MenuTree.FolderIndex | src/SampSharp.Documentation/Services/MenuTreeBuilder.cs:46 | FirstOrDefault finds the first folder registered for that Uri, or none |
| MenuTree.Insert | src/SampSharp.Documentation/Services/MenuTreeBuilder.cs:37-62 | walking a page's segments keeps the node's own fields, adds at most one entry, and only renames the node when the path ends there |
| MenuTree.InsertFinds | src/SampSharp.Documentation/Services/MenuTreeBuilder.cs:37-62 | after inserting a page its path is reachable and ends at a node named after the page |
| MenuTree.InsertKeeps | src/SampSharp.Documentation/Services/MenuTreeBuilder.cs:37-62 | every node reachable before is reachable after with the same Uri and route; only the page's own node is renamed |
| MenuTree.InsertUnique | src/SampSharp.Documentation/Services/MenuTreeBuilder.cs:40-57 | no node gets two children with the same UriPart |
| MenuTree.InsertUris | src/SampSharp.Documentation/Services/MenuTreeBuilder.cs:44 | every node's Uri stays the '/'-join of the UriParts on its path |
| MenuTree.InsertNewChild | src/SampSharp.Documentation/Services/MenuTreeBuilder.cs:42-57 | a new segment becomes the last child, with the joined Uri, the folder's name or else the segment, and the page's route |
| MenuTree.InsertPages | src/SampSharp.Documentation/Services/MenuTreeBuilder.cs:35-63 | Build's page loop throws NullReference exactly when some page has a null path |
| MenuTree.InsertPagesReach | src/SampSharp.Documentation/Services/MenuTreeBuilder.cs:35-63 | every page's path is reachable in the tree that results |
| MenuTree.InsertPagesWellFormed | src/SampSharp.Documentation/Services/MenuTreeBuilder.cs:35-63 | the finished tree has unique sibling parts and consistent Uris |
| MenuTree.GroupLosesChildren | src/SampSharp.Documentation/Services/MenuTreeBuilder.cs:65-68 | as written, a converted group is a single entry: its children land in the route-values argument |
| MenuTree.ConvertEntryAsWritten | src/SampSharp.Documentation/Services/MenuTreeBuilder.cs:65-68 | as written, every converted entry keeps its name and has null Entries; a leaf keeps its route, a group gets no route name and its converted children as route values |
| MenuTree.MenuAsWritten | src/SampSharp.Documentation/Services/MenuTreeBuilder.cs:70 | as written, one menu entry per top-level node, named after it, with null Entries |
| MenuTree.AsWrittenMenuFlat | src/SampSharp.Documentation/Services/MenuTreeBuilder.cs:65-70 | as written, every top-level menu entry counts as a single entry, so nothing below the top level is reachable through Entries |
| MenuTree.ConvertEntry | src/SampSharp.Documentation/Services/MenuTreeBuilder.cs:65-68 | corrected: a leaf keeps its name and route; a group gets no route and one converted child per entry |
| MenuTree.ConvertEntries | src/SampSharp.Documentation/Services/MenuTreeBuilder.cs:67 | one converted entry per child |
| MenuTree.ConvertKeepsNodes | src/SampSharp.Documentation/Services/MenuTreeBuilder.cs:65-68 | the corrected conversion keeps every node of the tree |
| MenuTree.Menu | src/SampSharp.Documentation/Services/MenuTreeBuilder.cs:70 | corrected: one menu entry per top-level node |
| MenuTree.MenuTreeBuilder.constructor | src/SampSharp.Documentation/Services/MenuTreeBuilder.cs:9-10 | a new builder has no pages and no folders |
| MenuTree.MenuTreeBuilder.AddPage | src/SampSharp.Documentation/Services/MenuTreeBuilder.cs:12-21 | the page is appended and the folders are unchanged |
| MenuTree.MenuTreeBuilder.AddFolder | src/SampSharp.Documentation/Services/MenuTreeBuilder.cs:23-30 | the folder is appended and the pages are unchanged |
| MenuTree.MenuTreeBuilder.Build | src/SampSharp.Documentation/Services/MenuTreeBuilder.cs:32-71 | throws exactly when some page has a null path, else returns the menu as the code converts the tree the pages build |
| FrontMatter.FirstFrom | src/SampSharp.Documentation/DataImportService.cs:53-59 | the first index from the start whose character passes the test, or -1 when none does |
| FrontMatter.FirstFromStep | src/SampSharp.Documentation/DataImportService.cs:53-59 | scanning on from a rejected character finds the same index |
| FrontMatter.IndexOfNoWhiteSpace | src/SampSharp.Documentation/DataImportService.cs:48-60 | a null input throws ArgumentNull, a negative start IndexOutOfRange; otherwise the first non-whitespace index from the start, or -1 |
| FrontMatter.IndexAfterAny | src/SampSharp.Documentation/DataImportService.cs:62-76 | null input, then null set, throw ArgumentNull; otherwise the first index from the start holding none of the characters, or -1 |
| FrontMatter.EndOfEndMarker | src/SampSharp.Documentation/DataImportService.cs:108-115 | after a closing line the text resumes at the end of the text when nothing follows, else at -1 or a non-whitespace index past the dashes |
| FrontMatter.TrimKeepsLine | src/SampSharp.Documentation/DataImportService.cs:102 | trimming a line without line breaks leaves none |
| FrontMatter.AppendDataLine | src/SampSharp.Documentation/DataImportService.cs:120-121 | a non-empty trimmed line keeps the data lines well formed |
| FrontMatter.ScanLines | src/SampSharp.Documentation/DataImportService.cs:95-122 | the loop only appends data lines, keeps them trimmed, non-empty and without line breaks, and ends at -1, the text's end or a non-whitespace index |
| FrontMatter.FrontMatterScan | src/SampSharp.Documentation/DataImportService.cs:84-124 | the data lines the block yields are trimmed, non-empty and without line breaks |
| FrontMatter.KeyValue | src/SampSharp.Documentation/DataImportService.cs:131-134 | a line without ':' throws IndexOutOfRange; otherwise the trimmed text before and after its first ':' |
| FrontMatter.ApplyLine | src/SampSharp.Documentation/DataImportService.cs:131-147 | a "title" line sets the title, "redirect_to" the redirect url when it starts with http:// or https:// and the redirect page otherwise; other keys change nothing |
| FrontMatter.ApplyLinesFails | src/SampSharp.Documentation/DataImportService.cs:129-148 | reading the metadata throws exactly when some data line has no ':' |
| FrontMatter.ApplyLinesSnoc | src/SampSharp.Documentation/DataImportService.cs:129-148 | one more data line is one more step after the others |
| FrontMatter.LastTitleWins | src/SampSharp.Documentation/DataImportService.cs:138-139 | the last title line decides the title |
| FrontMatter.TrimmedMarkdown | src/SampSharp.Documentation/DataImportService.cs:150-156 | a positive end index cuts the text there (to empty at or past its end); otherwise the text is untouched |
| FrontMatter.CloseBlock | src/SampSharp.Documentation/DataImportService.cs:108-115 | the two helper calls compute EndOfEndMarker |
| FrontMatter.ScanDataLines | src/SampSharp.Documentation/DataImportService.cs:95-122 | the data-line loop computes ScanLines from an empty line list |
| FrontMatter.ReadMeta | src/SampSharp.Documentation/DataImportService.cs:127-148 | the foreach computes the metadata of the data lines |
| FrontMatter.ParseMeta | src/SampSharp.Documentation/DataImportService.cs:78-159 | the method computes the parsed metadata and the trimmed text |
| FrontMatter.NoMarkerNoMeta | src/SampSharp.Documentation/DataImportService.cs:85-86 | a text that does not start with "---" after its leading whitespace keeps its text and gets empty metadata |
| FrontMatter.UnclosedBlockKeepsText | src/SampSharp.Documentation/DataImportService.cs:150-156 | a block without a closing line yields its metadata and leaves the text whole |
| FrontMatter.ScanEndShape | src/SampSharp.Documentation/DataImportService.cs:95-122 | the end index is -1, the text's length, or a non-whitespace index |
| FrontMatter.ParsedTextIsSuffix | src/SampSharp.Documentation/DataImportService.cs:150-156 | the text left is a suffix of the input: empty, the whole input, or starting with a non-whitespace character |
| FrontMatter.ShortTextThrows | src/SampSharp.Documentation/DataImportService.cs:86 | a text whose first non-whitespace character is among its last two throws on the three-character Substring |
| FrontMatter.BareMarkerThrows | src/SampSharp.Documentation/DataImportService.cs:88-91 | a marker of dashes running to the end of the text indexes at -1 and throws |
| Articles.DocArticle.constructor | src/SampSharp.Documentation/Services/NewDocsImportService.cs:214 | a new article has no metadata, introduction, uri or paragraphs |
| Articles.ApplyEntry | src/SampSharp.Documentation/Services/NewDocsImportService.cs:188-206 | the switch sets the title, the redirect url or page, or the category with its escaped uri, and ignores other keys |
| Articles.MetaStep | src/SampSharp.Documentation/Services/NewDocsImportService.cs:180-187 | an empty line is skipped; a non-empty line without ':' throws |
| Articles.ApplyMetaLinesFails | src/SampSharp.Documentation/Services/NewDocsImportService.cs:178-209 | the front matter throws IndexOutOfRange exactly when a non-empty line has no ':' |
| Articles.ApplyMetaLinesSnoc | src/SampSharp.Documentation/Services/NewDocsImportService.cs:178-209 | one more line is one more step after the others |
| Articles.LastEntryWins | src/SampSharp.Documentation/Services/NewDocsImportService.cs:187 | a final "key: value" line decides that key's dictionary entry, and a title line the title |
| Articles.EmptyLineSkipped | src/SampSharp.Documentation/Services/NewDocsImportService.cs:180-181 | an empty line changes nothing |
| Articles.ApplyMetadata | src/SampSharp.Documentation/Services/NewDocsImportService.cs:174-210 | returns the dictionary of the lines and leaves the article's metadata as the lines set it, or the exception |
| Articles.IntroductionIndex | src/SampSharp.Documentation/Services/NewDocsImportService.cs:142-145 | the first heading whose first literal is "Introduction", or none |
| Articles.TrimmedPreamble | src/SampSharp.Documentation/Services/NewDocsImportService.cs:137-152 | the document is unchanged unless it is trimmed, and a trimmed one is what follows the Introduction heading and starts with a paragraph |
| Articles.TrimIdempotent | src/SampSharp.Documentation/Services/NewDocsImportService.cs:137-152 | trimming twice trims no more than once |
| Articles.TrimRemovesThroughIntroduction | src/SampSharp.Documentation/Services/NewDocsImportService.cs:147-150 | what the trim removes ends at the first Introduction heading and holds no other |
| Articles.MarkdownDocument.constructor | src/SampSharp.Documentation/Services/NewDocsImportService.cs:219 | the document holds the given blocks |
| Articles.MarkdownDocument.RemoveAt | src/SampSharp.Documentation/Services/NewDocsImportService.cs:149 | the block at the index is removed and the others keep their order |
| Articles.TrimArticlePreamble | src/SampSharp.Documentation/Services/NewDocsImportService.cs:137-152 | the removal loop leaves the trimmed document |
| Articles.LeadingCount | src/SampSharp.Documentation/Services/NewDocsImportService.cs:237 | the number of blocks before the first heading |
| Articles.CollectIntroduction | src/SampSharp.Documentation/Services/NewDocsImportService.cs:236-241 | the loop renders and removes exactly the blocks before the first heading |
| Articles.IntroductionSplit | src/SampSharp.Documentation/Services/NewDocsImportService.cs:237-241 | the introduction holds no heading, and what remains is empty or starts with one |
| Articles.ParagraphOf | src/SampSharp.Documentation/Services/NewDocsImportService.cs:158-169 | a block yields a paragraph exactly when it is a level-2 heading with a first child, named after it with "#" and the escaped name as uri |
| Articles.ParseParagraphs | src/SampSharp.Documentation/Services/NewDocsImportService.cs:154-172 | at most one paragraph per block |
| Articles.ParagraphsAppend | src/SampSharp.Documentation/Services/NewDocsImportService.cs:154-172 | paragraphs keep document order across concatenation |
| Articles.NoHeadingNoParagraphs | src/SampSharp.Documentation/Services/NewDocsImportService.cs:158 | blocks without headings give no paragraphs |
| Articles.IntroductionText | src/SampSharp.Documentation/Services/NewDocsImportService.cs:243-245 | a blank introduction becomes null, any other is kept |
| Articles.IgnoredArticle | src/SampSharp.Documentation/Services/NewDocsImportService.cs:222-227 | front matter with an "ignore" key makes the import return null |
| Articles.ImportDefaults | src/SampSharp.Documentation/Services/NewDocsImportService.cs:243-260 | an imported article has a title (the file name by default), a category ("Docs" by default), the relative path as uri, and no blank introduction |
| Articles.ParagraphsOfBody | src/SampSharp.Documentation/Services/NewDocsImportService.cs:233-262 | without front matter, the paragraphs are those of the trimmed document |
| Articles.ImportArticle | src/SampSharp.Documentation/Services/NewDocsImportService.cs:212-267 | a fresh article holding the fields ImportedArticle gives, null for an ignored one, or the front matter's exception |
| DocImport.EntryNameAfterSlash | src/SampSharp.Documentation/DataImportService.cs:222 | a name after an empty or '/'-ended directory is its own last segment |
| DocImport.DocPathOf | src/SampSharp.Documentation/DataImportService.cs:217-223 | the file name has no '/' and starts the entry's last segment |
| DocImport.DocPathNamesFile | src/SampSharp.Documentation/DataImportService.cs:222-223 | the stored path of a file with a name ends in that name |
| DocImport.StoredMeta | src/SampSharp.Documentation/DataImportService.cs:229 | a stored title always exists: the given one, or the file name with '-' made ' ' |
| DocImport.DefaultPageAfter | src/SampSharp.Documentation/DataImportService.cs:225 | only a file named "index" sets the version's default page, to its redirect page |
| DocImport.OnlyIndexSetsDefaultPage | src/SampSharp.Documentation/DataImportService.cs:222-225 | a changed default page means the entry's file is named index |
| DocImport.ImportDocFile | src/SampSharp.Documentation/Services/DocsImportService.cs:313-328 | the stored path and metadata of a markdown entry, and the version's default page as updated |
| DocImport.AssetPath | src/SampSharp.Documentation/DataImportService.cs:236-241 | the asset path is lower-case and as long as the root-relative path |
| DocImport.StoredAsset | src/SampSharp.Documentation/DataImportService.cs:236-247 | an asset is stored, under its lower-cased path, exactly when its extension is accepted |
| DocImport.AssetCaseInsensitive | src/SampSharp.Documentation/Services/DocsImportService.cs:339-353 | case in an asset name does not change whether or where it is stored |
| DocImport.UpperCaseExtensionNeverAccepted | src/SampSharp.Documentation/DataImportService.cs:241-244 | an accepted extension with a capital letter never matches |
| DocImport.ArticleAsset | src/SampSharp.Documentation/Services/NewDocsImportService.cs:269-285 | the newer importer stores the path unchanged exactly when its extension is accepted |
| DocImport.AssetRulesAgree | src/SampSharp.Documentation/Services/NewDocsImportService.cs:269-285 | for a lower-case path without a root the two importers store the same asset |
| Versions.DocVersion.constructor | src/SampSharp.Documentation/Models/DocVersion.cs:20-24 | the tag and display name are set and there is no default page |
| Versions.DocVersion.Equals | src/SampSharp.Documentation/Models/DocVersion.cs:42-48 | false for null and other types; otherwise true exactly when the tags agree |
| Versions.DocVersion.GetHashCode | src/SampSharp.Documentation/Models/DocVersion.cs:52-55 | a null tag hashes to 0 |
| Versions.HashConsistent | src/SampSharp.Documentation/Models/DocVersion.cs:34-55 | equal versions hash alike |
| Versions.OpEquals | src/SampSharp.Documentation/Models/DocVersion.cs:67-70 | two nulls are equal, null and non-null are not, two versions are equal exactly when their tags are |
| Versions.OpNotEquals | src/SampSharp.Documentation/Models/DocVersion.cs:79-82 | the negation of equality in each case |
| Versions.OpEqualsEquivalence | src/SampSharp.Documentation/Models/DocVersion.cs:67-70 | equality is reflexive, symmetric and transitive |
| Versions.EqualityIgnoresDisplay | src/SampSharp.Documentation/Models/DocVersion.cs:34-37 | versions with one tag are equal whatever their display names and default pages |
| Versions.LowerOption | src/SampSharp.Documentation/VersionBuilder.cs:40 | null stays null; otherwise lower-case and of the same length |
| Versions.ViewOf | src/SampSharp.Documentation/VersionBuilder.cs:35-41 | names copied, default exactly when equal to the configured default, page lower-cased |
| Versions.GetAll | src/SampSharp.Documentation/VersionBuilder.cs:30-42 | one view per version in order; a null version throws NullReference |
| Versions.NoDefaultNoneMarked | src/SampSharp.Documentation/VersionBuilder.cs:39 | with no default configured no view is marked default |
| Versions.GetFile | src/SampSharp.Documentation/Controllers/SampSharpController.cs:110-118 | null when either name is null; a file found is the one stored under both lower-cased names |
| Versions.FirstDefault | src/SampSharp.Documentation/Controllers/SampSharpController.cs:66 | the first version marked default, or none |
| Versions.FirstWithTag | src/SampSharp.Documentation/Controllers/SampSharpController.cs:84 | the first version with that tag, or none |
| Versions.SelectionErrors | src/SampSharp.Documentation/Controllers/SampSharpController.cs:62-66 | a page without a version throws ArgumentException, a list without a default throws InvalidOperation, and nothing else fails |
| Versions.SelectionConsistent | src/SampSharp.Documentation/Controllers/SampSharpController.cs:56-108 | a successful selection always has a listed fallback version, a newly set page version is that fallback, and a newly set page is stored under it |
| Versions.UnknownVersionKeepsPage | src/SampSharp.Documentation/Controllers/SampSharpController.cs:96-103 | a page with an unknown version only moves the fallback to the default |
| Versions.UpperCaseTagNotSelectable | src/SampSharp.Documentation/Controllers/SampSharpController.cs:59-97 | a non-default version with an upper-case tag is never picked, because the request is lower-cased first |
| Versions.SampSharpController.constructor | src/SampSharp.Documentation/Controllers/SampSharpController.cs:31-35 | nothing is cached or selected yet |
| Versions.SampSharpController.Versions | src/SampSharp.Documentation/Controllers/SampSharpController.cs:40 | the first call caches the built list; later calls return the cache |
| Versions.SampSharpController.SetCurrentPage | src/SampSharp.Documentation/Controllers/SampSharpController.cs:56-108 | the page state becomes the selection on the (cached) list; an exception leaves the page state unchanged |

## Left out

- File and stream I/O, zip and tar archives, the GitHub API, the database and the storage service are left out. The importers are modelled from the point where an entry's name, text or parsed blocks are in hand.
- Markdig parsing and HTML rendering are left out. A document is a sequence of blocks, and rendering a block is a function parameter. An article's Content, LastModification and EditUrl are therefore not modelled, and neither are a doc file's.
- The breadcrumbs loop and the AddPage/StoreDocFile calls at the end of `ImportDoc` are left out, and so are the branch loops `ImportAllBranches`/`ImportBranch` with their root-directory detection and `ActivateVersion`.
- HeadingRenderer.NormalizeString: the FormD and FormC normalisations and the NonSpacingMark category test come from the Unicode tables and are the parameter `unicode`; `char.IsLetterOrDigit` in EscapeName is the parameter `letterOrDigit`.
- HeadingRenderer.HeadingText: the heading's anchor markup comes from the first literal inline, which is an abstraction (`firstChild`); `WriteAttributes` and `WriteLeafInline` output is not modelled.
- Strings.Lower: `ToLower`/`ToLowerInvariant` are modelled for the ASCII letters A-Z only. Other cased letters are unchanged in the model.
- Paths.Combine: only '/' is a directory separator. `Path.GetDirectoryName` turning '/' into the platform separator is not modelled.
- Culture-sensitive `StartsWith(string)` is modelled as ordinal prefix comparison.
- MenuTree.MenuTreeBuilder.Build: the walk of `cur` through mutable TreeBuildEntry objects is modelled on tree values; aliasing between entries is not captured. `folder.Name` on the default `Page` struct gives null, which the model expresses as None.
- Articles.MarkdownDocument.RemoveAt: requires an index in range. Markdig throws ArgumentOutOfRange otherwise, and the calls in the importer never hit that case.
- Versions.SampSharpController.Versions: the list `GetAll` would build is passed in as a parameter. The controller's `Sidebar` and `VersionPicker` view models are not modelled.
- Versions.DocVersion.GetHashCode: the string hash is a parameter.
- PEParser.Extractor.Parse: the state each definition node had before the accessor pass is the one MoveAccessors records in its inputs. Parse's own contract names those inputs but cannot name that intermediate state, so it states only that each node holds what both passes compute from inputs that agree with it on everything the passes do not write. The comparer `same` is a parameter of Parse, as below.
- PEParser.Extractor.Parse: the loop over `_infoProvider.Types` walks the definition nodes in the order they were first cached, which is the order the dictionary enumerates them in under the insertion-order rule below.
- Accessors.RemovePropertyMethods: type equality inside `ParametersEquals` is the parameter `same`, not Equals itself. Accessors.ParametersEqualsIsZip relates it to Reflection.EqualsWithin.
- Reflection.NameWithin: the recursive getters over the type graph (Name, Namespace, FullName, Equals, documentation ids) take a fuel bound. When the declaring-type or element-type chain is longer than the fuel, the model gives an error where the source would keep walking.
- DocsParser.Combine: the walk takes a fuel bound for nested types in the same way.
- DocsParser: the stream and file-path overloads of Parse (opening files, NuGet zip streams) are left out; the model starts from the parsed XML tree and the metadata tables.
- Constants.GetConstant: Single, Double and String constants are returned undecoded, because floating point and BitConverter.ToString's hex formatting are not modelled; their byte-width checks are modelled.
- Dictionary enumeration order is modelled as insertion order. .NET does not promise this, though it holds for dictionaries without removals.
- CodeReference has no Equals override, so dictionaries keyed by it compare by identity. The model keeps the exception and permission entries as a sequence of pairs that never merge, rather than as a map.
- InfoProvider.Registry.Decode: System.Reflection.Metadata's SignatureDecoder is not part of this model's sources. Its rule is followed: a TypeSpecification handle is accepted only as a custom modifier. A signature whose modifier or generic open type is not a handle at all cannot be written in a blob, and the model decodes such a modifier as a full signature.
- SignatureTypes.GetModifiedType: follows the code, which returns the modifier type and not the unmodified type.
- TypeDebugPrinter: the printer reads the type graph through value views (types, parameters, methods). `PrintAttributes` and the member lines of `PrintTypes` are console output and are left out.
- Versions.UpperCaseTagNotSelectable records behaviour as written: a version tag stored with capitals can never be selected by name.
- PEParser.Extractor.ParseParameters, SignatureTypes.GetUnderlyingEnumType and MenuTree.MenuTreeBuilder.Build keep the behaviour as written. The corrected definitions named under Findings are proved alongside them but are not substituted into the parse.

## Findings

| source | as written | input that shows it | evidently intended | confidence | as-written member | corrected member |
|---|---|---|---|---|---|---|
| src/SampSharp.Documentation/Services/StorageKey.cs:43-48 | the version key is "docs/" and the raw version, while every other key escapes and lower-cases the version | version "Main": data keys live under "docs/main/", the version key is "docs/Main" | the version key names the directory the other keys of that version live in | high, not executed | StorageKeys.VersionKeyMissesDataKeys | StorageKeys.EscapedVersionKeyHoldsKeys |
| src/SampSharp.Documentation/Services/MenuTreeBuilder.cs:65-68 | a group is built with the three-argument constructor, so its children array is passed as the route values | pages "a/b": the entry "a" has no child entries, and its route values hold the "b" entry | a group entry holds its converted children, so the menu keeps every node | medium, not executed | MenuTree.GroupLosesChildren | MenuTree.ConvertKeepsNodes |
| src/DocPluck/Parser/SignatureTypeProvider.cs:72-83 | the switch on the underlying type's name expects "Int8" and "UInt8" | an enum over byte: its underlying type is named "Byte", which falls to the default and decodes as Int32 | every integral underlying type decodes as itself | high, not executed | SignatureTypes.ByteEnumsDecodeAsInt32 | SignatureTypes.CorrectedEnumCodeRoundTrip |
| src/DocPluck/Parser/DocsPEParser.cs:145-171 | Param rows are paired with signature types by enumeration order, ignoring each row's sequence number | a method with one parameter whose return value has a Param row (sequence 0) first: the parameter gets the name "" and its own row is dropped | each parameter is paired with the Param row whose sequence is its position | medium, not executed | PEParser.ReturnRowShiftsNames | PEParser.ParameterSlotsMatchSequence |
