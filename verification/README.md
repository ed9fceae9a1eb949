# Jenkins job import: a verified model

The job-import plugin copies jobs from a remote Jenkins into the local one. It
discovers the remote jobs through the remote XML API, shows them, and for each
selected job fetches its `config.xml` and creates a local item from it. It
records one status per job: success, duplicate name, not a project, or the
exception that stopped it. The source holds three generations of this
machinery, and each is a module group here:

- **The newest item tree** (`model/`, `utils/RemoteItemUtils`,
  `client/RestApiClient`, `utils/URLUtils.safeURL`). Remote jobs and folders
  form a tree. Every item memoises its full name, computed from its parent
  chain. A folder keeps its children in a `TreeSet` ordered by full name.
  Modules: `RemoteModel`, `RemoteItemUtils`, `RestApiClient`, `UrlUtils`,
  `ItemText`, `ItemImportStatus`.
  - The tree is an arena: items are immutable values in a sequence, and a
    parent is the index of an earlier folder.
  - The live children sets belong to the class `RemoteModel.RemoteTree`, whose
    methods build items and add children in place.
  - `RestApiClient.GetRemoteItems` walks the remote listing over that class. It
    is proved equal to the functional walk `RestApiClient.Discover`.
- **The first generation** (root `RemoteJob`, `RemoteJobImportStatus`,
  `RemoteJobUtils`, `JobImportAction`). A mutable `RemoteJob` is identified and
  ordered by its name alone. A `TreeSet` of such jobs is a strictly
  name-ascending sequence (`LegacyJobs.JobSet`). `fromXml` dispatches on the
  document's root tag. The action's `doQuery` lists the remote jobs;
  `doImport` imports the selected ones.
  Modules: `LegacyJobs`, `LegacyImportStatus`, `RemoteJobUtils`,
  `JobImportAction`.
- **The `action` package's `JobImportAction`**. It filters the listing with
  XPath `exclude` filters and imports a job under an optional new name. It can
  also rewrite the job's configuration with a regular expression first.
  Module: `ActionJobImportAction`.

Both import actions are classes whose fields the Dafny methods update:
`DoClear`, `DoQuery`, `GetRemoteJobs` and `DoImport`. Each method is proved
equal to a functional specification, for example `Import` over `ImportAll`
over `ImportOne`. The lemmas state what those specifications guarantee. For
both import actions:
- a taken name (for the `action` package, the imported name) is marked as a
  duplicate and nothing is fetched, created or deleted for it;
- no item that existed before an import is removed;
- a failed creation is rolled back;
- without an escaped exception, the ledger's keys after the loop are the old
  keys plus exactly the keys of the jobs the requests match (the job's name in
  the first generation, its full name in the `action` package).

For the first generation, a further invariant over the whole loop says that
every taken name ends up marked as a duplicate and that success is recorded
only for items the import created. For the `action` package, the same facts
are stated per pass only (`ImportOneOutcome`, `DuplicateFetchesNothing`).

Java `null` is `None` (`Wrappers.Option`) or a nullable class reference. An
exception is `Failure`, or `None` where the source lets it propagate. The local
Jenkins is the set of its top-level item names (`LocalJenkins`).

## Model


| member | source | states |
|---|---|---|
| JavaStrings.CharUnits | src/main/java/org/jenkins/ci/plugins/jobimport/model/RemoteItem.java:75 | a character is one UTF-16 unit below U+10000 and two otherwise; every unit is a 16-bit value |
| JavaStrings.CharUnitsDecode | src/main/java/org/jenkins/ci/plugins/jobimport/model/RemoteItem.java:75 | decoding a character's units gives it back, and the first unit is a high surrogate exactly when there are two |
| JavaStrings.SurrogatePair | src/main/java/org/jenkins/ci/plugins/jobimport/model/RemoteItem.java:75 | a supplementary character is a high surrogate followed by a low surrogate, and the pair decodes back to it |
| JavaStrings.Utf16 | src/main/java/org/jenkins/ci/plugins/jobimport/model/RemoteItem.java:55-58 | the UTF-16 form of a string has one or two 16-bit units per character |
| JavaStrings.Utf16Injective | src/main/java/org/jenkins/ci/plugins/jobimport/model/RemoteItem.java:69-76 | distinct strings have distinct UTF-16 forms, so comparing units decides equality |
| JavaStrings.AsciiUnits | src/main/java/org/jenkins/ci/plugins/jobimport/utils/RemoteItemUtils.java:54-56 | an ASCII string has exactly one unit per character |
| JavaStrings.CompareUnitsSign | src/main/java/org/jenkins/ci/plugins/jobimport/RemoteJob.java:79-85 | the unit comparison is zero exactly on equal unit sequences; its sign is their lexicographic order |
| JavaStrings.CompareUnitsAntisymmetric | src/main/java/org/jenkins/ci/plugins/jobimport/RemoteJob.java:79-85 | swapping the unit sequences negates the comparison |
| JavaStrings.LessUnitsIrreflexive | src/main/java/org/jenkins/ci/plugins/jobimport/RemoteJob.java:79-85 | no unit sequence comes before itself |
| JavaStrings.LessUnitsTransitive | src/main/java/org/jenkins/ci/plugins/jobimport/RemoteJob.java:79-85 | the lexicographic order of unit sequences is transitive |
| JavaStrings.LessUnitsTotal | src/main/java/org/jenkins/ci/plugins/jobimport/RemoteJob.java:79-85 | of two distinct unit sequences, one comes first |
| JavaStrings.Compare | src/main/java/org/jenkins/ci/plugins/jobimport/RemoteJob.java:84 | `String.compareTo` runs over the UTF-16 units: zero exactly on equal strings, negative exactly when the first string's units come first |
| JavaStrings.LessIrreflexive | src/main/java/org/jenkins/ci/plugins/jobimport/model/RemoteItem.java:69-76 | no string comes before itself |
| JavaStrings.LessTransitive | src/main/java/org/jenkins/ci/plugins/jobimport/model/RemoteItem.java:69-76 | the string order is transitive |
| JavaStrings.LessTotal | src/main/java/org/jenkins/ci/plugins/jobimport/model/RemoteItem.java:69-76 | of two distinct strings, one comes first |
| JavaStrings.SupplementarySortsBeforeHighBmp | src/main/java/org/jenkins/ci/plugins/jobimport/RemoteJob.java:84 | a supplementary character sorts before a character from U+E000 to U+FFFF, as UTF-16 unit order has it and code-point order does not |
| JavaStrings.CompareAntisymmetric | src/main/java/org/jenkins/ci/plugins/jobimport/model/RemoteItem.java:69-76 | swapping the operands of `String.compareTo` negates the result |
| JavaStrings.CompareTransitive | src/main/java/org/jenkins/ci/plugins/jobimport/model/RemoteItem.java:69-76 | `String.compareTo` is transitive on its sign |
| JavaStrings.ContainsIff | src/main/java/org/jenkins/ci/plugins/jobimport/action/JobImportAction.java:201-207 | `String.contains` holds exactly when the text occurs at some index |
| JavaStrings.IndexOf | src/main/java/org/jenkins/ci/plugins/jobimport/client/RestApiClient.java:44 | the index found is an occurrence of the separator, and no earlier index is one; none means no occurrence at all |
| JavaStrings.Pieces | src/main/java/org/jenkins/ci/plugins/jobimport/client/RestApiClient.java:44 | cutting at every occurrence of the separator gives at least one piece |
| JavaStrings.PiecesAreFree | src/main/java/org/jenkins/ci/plugins/jobimport/client/RestApiClient.java:44 | no piece holds the separator |
| JavaStrings.PiecesRoundTrip | src/main/java/org/jenkins/ci/plugins/jobimport/client/RestApiClient.java:44 | the pieces joined by the separator give the text back |
| JavaStrings.Split | src/main/java/org/jenkins/ci/plugins/jobimport/client/RestApiClient.java:44 | no element holds the separator; without an occurrence the result is the input alone; otherwise it is the pieces with only trailing empty ones removed, the last kept being non-empty |
| JavaStrings.StripIsPrefix | src/main/java/org/jenkins/ci/plugins/jobimport/client/RestApiClient.java:44 | removing trailing empty strings keeps a prefix, removes only empty strings, and leaves a non-empty last element |
| JavaStrings.SplitWithoutSeparator | src/main/java/org/jenkins/ci/plugins/jobimport/client/RestApiClient.java:44 | without an occurrence of the separator, `split` gives the input alone and element 1 does not exist |
| JavaStrings.SplitAfterFirst | src/main/java/org/jenkins/ci/plugins/jobimport/client/RestApiClient.java:44 | element 1 of `split` is the text between the first and the second occurrence; it is missing when only separators follow the first |
| JavaStrings.StripPiecesEmpty | src/main/java/org/jenkins/ci/plugins/jobimport/client/RestApiClient.java:44 | `split` drops every piece exactly when the text is made of separators only |
| JavaStrings.TrimIsStretch | src/main/java/org/jenkins/ci/plugins/jobimport/utils/RemoteItemUtils.java:67 | `trim` keeps one stretch of the text; everything cut before and after it is at or below U+0020, and the stretch starts and ends above U+0020 |
| JavaStrings.IsBlank | src/main/java/org/jenkins/ci/plugins/jobimport/action/JobImportAction.java:316 | a null or empty text is blank |
| JavaStrings.BlankAsciiTrimsToEmpty | src/main/java/org/jenkins/ci/plugins/jobimport/action/JobImportAction.java:239 | a blank ASCII text trims to the empty string |
| JavaStrings.ToInt32 | src/main/java/org/jenkins/ci/plugins/jobimport/model/RemoteItem.java:55-58 | the hash arithmetic wraps to Java's 32-bit `int`: the result is in range and congruent to the exact value |
| JavaStrings.UnitsHash | src/main/java/org/jenkins/ci/plugins/jobimport/model/RemoteItem.java:55-58 | the hash of a unit sequence is a 32-bit `int` congruent modulo 2^32 to the polynomial `s[0]*31^(n-1) + … + s[n-1]` |
| JavaStrings.StringHash | src/main/java/org/jenkins/ci/plugins/jobimport/RemoteJob.java:100-103 | `String.hashCode` is a 32-bit `int` congruent modulo 2^32 to that polynomial over the string's UTF-16 units |
| ItemText.Tagged | src/main/java/org/jenkins/ci/plugins/jobimport/utils/RemoteItemUtils.java:45 | `getElementsByTagName` never selects more nodes than there are descendants |
| ItemText.TaggedExactly | src/main/java/org/jenkins/ci/plugins/jobimport/utils/RemoteItemUtils.java:45 | every selected node has the tag and is a descendant, and every descendant with the tag is selected |
| ItemText.TaggedAppend | src/main/java/org/jenkins/ci/plugins/jobimport/utils/RemoteItemUtils.java:45 | selection distributes over concatenation, so it keeps document order and multiplicity |
| ItemText.TaggedUnique | src/main/java/org/jenkins/ci/plugins/jobimport/utils/RemoteItemUtils.java:45-46 | a single descendant with the tag is exactly the selection |
| ItemText.TaggedNone | src/main/java/org/jenkins/ci/plugins/jobimport/utils/RemoteItemUtils.java:45-46 | without a descendant of the tag nothing is selected |
| ItemText.Text | src/main/java/org/jenkins/ci/plugins/jobimport/utils/RemoteItemUtils.java:44-52 | `text` is non-null exactly when one descendant has the tag, and is then that descendant's content |
| ItemText.TextOfUnique | src/main/java/org/jenkins/ci/plugins/jobimport/utils/RemoteItemUtils.java:46-48 | with a single descendant of the tag, `text` is its content |
| ItemText.TextOfShared | src/main/java/org/jenkins/ci/plugins/jobimport/utils/RemoteItemUtils.java:46-50 | two descendants with the tag make `text` null |
| ItemText.Decimal | src/main/java/org/jenkins/ci/plugins/jobimport/utils/RemoteItemUtils.java:55 | the decimal digits `escapeHtml` writes for a code unit: non-empty, digits only, no leading zero unless the value is 0, and their value is the unit |
| ItemText.ReferenceShape | src/main/java/org/jenkins/ci/plugins/jobimport/utils/RemoteItemUtils.java:55 | a numeric reference `&#n;` is ASCII without markup characters, starts with `&` and ends with `;` |
| ItemText.EscapeChar | src/main/java/org/jenkins/ci/plugins/jobimport/utils/RemoteItemUtils.java:55 | one UTF-16 unit or pair escaped: ASCII and markup-free; unchanged exactly for a plain ASCII character; otherwise an entity or references from `&` to `;` (two for a supplementary character) |
| ItemText.EscapeHtml | src/main/java/org/jenkins/ci/plugins/jobimport/utils/RemoteItemUtils.java:55 | escaped text is ASCII, holds no `<`, `>` or `"`, and is never shorter than the input |
| ItemText.EscapeHtmlAppend | src/main/java/org/jenkins/ci/plugins/jobimport/utils/RemoteItemUtils.java:55 | escaping distributes over concatenation |
| ItemText.EscapeHtmlKeepsPlainText | src/main/java/org/jenkins/ci/plugins/jobimport/utils/RemoteItemUtils.java:55 | plain ASCII without special characters is left unchanged by the escaping |
| ItemText.ReadReferenceOf | src/main/java/org/jenkins/ci/plugins/jobimport/utils/RemoteItemUtils.java:55 | a numeric reference reads back as the value written in it, leaving what follows |
| ItemText.UnescapePairReference | src/main/java/org/jenkins/ci/plugins/jobimport/utils/RemoteItemUtils.java:55 | the two references written for the surrogates of a supplementary character decode together to that character |
| ItemText.UnescapeEscapeChar | src/main/java/org/jenkins/ci/plugins/jobimport/utils/RemoteItemUtils.java:55 | each escaped character, entity or references, decodes back to the character |
| ItemText.UnescapeEscapeHtml | src/main/java/org/jenkins/ci/plugins/jobimport/utils/RemoteItemUtils.java:55 | decoding the escaped text gives the text back |
| ItemText.EscapeHtmlInjective | src/main/java/org/jenkins/ci/plugins/jobimport/utils/RemoteItemUtils.java:55 | distinct texts escape to distinct texts |
| ItemText.CleanRemoteString | src/main/java/org/jenkins/ci/plugins/jobimport/utils/RemoteItemUtils.java:54-56 | null stays null; otherwise the escaped text cut to exactly 4096 characters when longer and kept whole when not, ASCII and without markup characters, so its 4096 characters are 4096 UTF-16 units |
| UrlUtils.SafeUrl | src/main/java/org/jenkins/ci/plugins/jobimport/utils/URLUtils.java:114-124 | the joined URL always ends with the suffix |
| UrlUtils.SafeUrlJoinsWithOneSlash | src/main/java/org/jenkins/ci/plugins/jobimport/utils/URLUtils.java:114-124 | in all four branches the result is the base without one trailing `/`, one `/`, and the suffix without one leading `/` |
| UrlUtils.SafeUrlIgnoresTrailingSlash | src/main/java/org/jenkins/ci/plugins/jobimport/utils/URLUtils.java:114-124 | a base with or without its trailing `/` gives the same URL |
| UrlUtils.SafeUrlIgnoresLeadingSlash | src/main/java/org/jenkins/ci/plugins/jobimport/utils/URLUtils.java:114-124 | a suffix with or without its leading `/` gives the same URL |
| RemoteModel.PathTextShape | src/main/java/org/jenkins/ci/plugins/jobimport/utils/RemoteItemUtils.java:26-35 | the path built by the loop ends with the item's own name and, below a parent, starts with the parent's path and `/` |
| RemoteModel.FullName | src/main/java/org/jenkins/ci/plugins/jobimport/utils/RemoteItemUtils.java:17-36 | an item without a parent has its own name as full name (null when the name is); an item with a parent always has one |
| RemoteModel.FullNameEndsWithName | src/main/java/org/jenkins/ci/plugins/jobimport/utils/RemoteItemUtils.java:26-35 | a child's full name ends with `/` and its own name |
| RemoteModel.FullNameOfChild | src/main/java/org/jenkins/ci/plugins/jobimport/utils/RemoteItemUtils.java:26-35 | a child's full name is its parent's full name, `/`, and its own name |
| RemoteModel.PathTextStable | src/main/java/org/jenkins/ci/plugins/jobimport/model/RemoteItem.java:26 | building more items changes no existing item's path |
| RemoteModel.FullNameStable | src/main/java/org/jenkins/ci/plugins/jobimport/model/RemoteItem.java:26 | building more items changes no existing item's full name, so the memoised value stays right |
| RemoteModel.Build | src/main/java/org/jenkins/ci/plugins/jobimport/model/RemoteItem.java:18-27 | the constructed item keeps name, impl, url and parent, cleans the description (at most 4096 characters), and memoises exactly the full name computed from its parent chain; a child always has one |
| RemoteModel.Equals | src/main/java/org/jenkins/ci/plugins/jobimport/model/RemoteItem.java:60-67 | true exactly for another item with the same full name and the same impl; false for anything that is not an item |
| RemoteModel.HashCode | src/main/java/org/jenkins/ci/plugins/jobimport/model/RemoteItem.java:55-58 | the hash of (full name, impl) is a 32-bit `int` |
| RemoteModel.EqualsImpliesSameHash | src/main/java/org/jenkins/ci/plugins/jobimport/model/RemoteItem.java:55-67 | equal items hash equally |
| RemoteModel.CompareTo | src/main/java/org/jenkins/ci/plugins/jobimport/model/RemoteItem.java:69-76 | zero for equal items; throws exactly for unequal items when a full name is null; non-zero only for distinct non-null full names |
| RemoteModel.CompareToByFullName | src/main/java/org/jenkins/ci/plugins/jobimport/model/RemoteItem.java:69-76 | for non-null full names `compareTo` is zero exactly when the full names coincide, whatever the impls, and otherwise follows their lexicographic order |
| RemoteModel.CompareToIsOrder | src/main/java/org/jenkins/ci/plugins/jobimport/model/RemoteItem.java:69-76 | `compareTo` is antisymmetric and transitive |
| RemoteModel.KindDoesNotMatter | src/main/java/org/jenkins/ci/plugins/jobimport/model/RemoteItem.java:60-76 | a job and a folder with the same impl and full name are equal and compare as zero |
| RemoteModel.InsertChild | src/main/java/org/jenkins/ci/plugins/jobimport/model/RemoteFolder.java:10 | adding to the children set only ever adds the new item |
| RemoteModel.InsertChildContents | src/main/java/org/jenkins/ci/plugins/jobimport/model/RemoteFolder.java:10 | the set gains exactly the new item unless one with its full name is present, in which case it is unchanged; either way one with that full name is present afterwards |
| RemoteModel.InsertChildSorted | src/main/java/org/jenkins/ci/plugins/jobimport/model/RemoteFolder.java:10 | adding keeps the children in strictly ascending full-name order |
| RemoteModel.AddItem | src/main/java/org/jenkins/ci/plugins/jobimport/model/RemoteJob.java:7-9 | constructing a job or a folder appends the built item with no children and keeps the tree well formed |
| RemoteModel.AddChildTo | src/main/java/org/jenkins/ci/plugins/jobimport/model/RemoteFolder.java:16-18 | `getChildren().add(c)` changes only that folder's set and keeps the tree well formed |
| RemoteModel.RemoteTree.NewItem | src/main/java/org/jenkins/ci/plugins/jobimport/model/RemoteItem.java:18-27 | a new item is appended to the tree as `AddItem` describes, with an empty children set |
| RemoteModel.RemoteTree.AddChild | src/main/java/org/jenkins/ci/plugins/jobimport/model/RemoteFolder.java:16-18 | the live set is updated as `AddChildTo` describes; the result tells whether the set grew, and the folder then has children |
| RemoteModel.RemoteTree.HasChildren | src/main/java/org/jenkins/ci/plugins/jobimport/model/RemoteFolder.java:20-22 | true exactly when the children set is non-empty |
| RemoteItemUtils.FullNameWalk | src/main/java/org/jenkins/ci/plugins/jobimport/utils/RemoteItemUtils.java:17-36 | the loop computes "" for a null item and otherwise the recursive full name |
| RemoteItemUtils.FirstMatch | src/main/java/org/jenkins/ci/plugins/jobimport/utils/RemoteItemUtils.java:66-70 | the position found has a matching trimmed url and no earlier one has; none means no item matches |
| RemoteItemUtils.FindFirstMatchingRemoteItem | src/main/java/org/jenkins/ci/plugins/jobimport/utils/RemoteItemUtils.java:59-73 | null for an empty filter; otherwise the first item in set order whose trimmed url equals the trimmed filter |
| RemoteItemUtils.Descendants | src/main/java/org/jenkins/ci/plugins/jobimport/utils/RemoteItemUtils.java:92-101 | the listing holds items of the tree only |
| RemoteItemUtils.DescendantsFromStep | src/main/java/org/jenkins/ci/plugins/jobimport/utils/RemoteItemUtils.java:94-98 | each child is listed, then its own descendants, then the following children |
| RemoteItemUtils.PopulateAllChildren | src/main/java/org/jenkins/ci/plugins/jobimport/utils/RemoteItemUtils.java:92-101 | the recursive loop yields exactly the pre-order listing `Descendants` |
| RemoteItemUtils.FindRemoteItemAndDescendants | src/main/java/org/jenkins/ci/plugins/jobimport/utils/RemoteItemUtils.java:76-90 | empty for an empty filter or no match; otherwise the first match, followed by all its descendants when it is a folder |
| RemoteItemUtils.DescendantsAreBelow | src/main/java/org/jenkins/ci/plugins/jobimport/utils/RemoteItemUtils.java:92-101 | every listed item lies below the folder on its parent chain |
| RemoteItemUtils.DescendantsParentFirst | src/main/java/org/jenkins/ci/plugins/jobimport/utils/RemoteItemUtils.java:92-101 | no item is listed before its parent |
| RemoteItemUtils.DescendantsClosed | src/main/java/org/jenkins/ci/plugins/jobimport/utils/RemoteItemUtils.java:92-101 | nothing is missed: the children of the folder and of every listed item are listed |
| RestApiClient.ListingRequest | src/main/java/org/jenkins/ci/plugins/jobimport/client/RestApiClient.java:34-35 | the request URL ends with the XML API query |
| RestApiClient.ChildUrlRebases | src/main/java/org/jenkins/ci/plugins/jobimport/client/RestApiClient.java:44 | the item URL is the listing URL, `/job`, and the reported URL's text between its first and second `job` |
| RestApiClient.ChildUrlNeedsJob | src/main/java/org/jenkins/ci/plugins/jobimport/client/RestApiClient.java:44 | a reported URL without `job` makes the rebasing throw |
| RestApiClient.ChildUrlShape | src/main/java/org/jenkins/ci/plugins/jobimport/client/RestApiClient.java:44 | a rebased URL needs the element's single `url`; it starts with the listing URL and `/job`, and the rest holds no `job` |
| RestApiClient.Attach | src/main/java/org/jenkins/ci/plugins/jobimport/client/RestApiClient.java:40-55 | the entry's item is appended, a folder exactly for the folder class, with the rebased URL; only the parent's children set changes, gaining the item |
| RestApiClient.Discover | src/main/java/org/jenkins/ci/plugins/jobimport/client/RestApiClient.java:25-67 | a walk only adds items; each is a folder exactly for the folder class and hangs from the parent or, when recursive, from a folder the walk built |
| RestApiClient.Visit | src/main/java/org/jenkins/ci/plugins/jobimport/client/RestApiClient.java:38-61 | the entry loop keeps the walk's shape from any point on |
| RestApiClient.EntryStep | src/main/java/org/jenkins/ci/plugins/jobimport/client/RestApiClient.java:47-59 | one entry builds at least one item and keeps the walk's shape |
| RestApiClient.AttachShape | src/main/java/org/jenkins/ci/plugins/jobimport/client/RestApiClient.java:47-55 | building one entry's item is a step of the walk's shape |
| RestApiClient.ShapeCompose | src/main/java/org/jenkins/ci/plugins/jobimport/client/RestApiClient.java:38-61 | successive steps of a walk compose into one walk |
| RestApiClient.ShapeNest | src/main/java/org/jenkins/ci/plugins/jobimport/client/RestApiClient.java:57-59 | a sub-walk below a folder just built keeps the shape of a recursive walk |
| RestApiClient.AttachEntry | src/main/java/org/jenkins/ci/plugins/jobimport/client/RestApiClient.java:47-55 | the live tree becomes `Attach` of the old one |
| RestApiClient.GetRemoteItems | src/main/java/org/jenkins/ci/plugins/jobimport/client/RestApiClient.java:25-67 | the live tree and the requests made are exactly those of `Discover`, and the list returned is every item built, in the order built |
| RestApiClient.GetEntry | src/main/java/org/jenkins/ci/plugins/jobimport/client/RestApiClient.java:39-60 | one turn of the loop does exactly `EntryStep` and returns the items it built |
| RestApiClient.GetFolder | src/main/java/org/jenkins/ci/plugins/jobimport/client/RestApiClient.java:47-59 | building a folder of a recursive walk and then walking its listing does exactly `EntryStep`, and returns every item built, the folder first |
| RestApiClient.GetFolderListing | src/main/java/org/jenkins/ci/plugins/jobimport/client/RestApiClient.java:57-59 | with the folder attached, walking its listing completes exactly `EntryStep` and returns the folder and the items built below it |
| RestApiClient.EntryStepAttaches | src/main/java/org/jenkins/ci/plugins/jobimport/client/RestApiClient.java:47-55 | an entry that is not expanded adds its own item and makes no request |
| RestApiClient.EntryStepExpands | src/main/java/org/jenkins/ci/plugins/jobimport/client/RestApiClient.java:57-59 | a folder of a recursive walk is followed by the walk of its own listing |
| ItemImportStatus.RemoteItemImportStatus.Empty | src/main/java/org/jenkins/ci/plugins/jobimport/RemoteItemImportStatus.java:37-39 | no item and no status |
| ItemImportStatus.RemoteItemImportStatus.Of | src/main/java/org/jenkins/ci/plugins/jobimport/RemoteItemImportStatus.java:41-43 | the item, no status |
| ItemImportStatus.RemoteItemImportStatus.constructor | src/main/java/org/jenkins/ci/plugins/jobimport/RemoteItemImportStatus.java:45-49 | the item and the status |
| ItemImportStatus.RemoteItemImportStatus.SetRemoteJob | src/main/java/org/jenkins/ci/plugins/jobimport/RemoteItemImportStatus.java:55-57 | only the item changes |
| ItemImportStatus.RemoteItemImportStatus.SetStatus | src/main/java/org/jenkins/ci/plugins/jobimport/RemoteItemImportStatus.java:63-65 | only the status changes |
| ItemImportStatus.RemoteItemImportStatus.CompareTo | src/main/java/org/jenkins/ci/plugins/jobimport/RemoteItemImportStatus.java:67-73 | for distinct entries: throws without an item; with named items, zero exactly on equal full names and negative exactly when this full name comes first |
| ItemImportStatus.RemoteItemImportStatus.Equals | src/main/java/org/jenkins/ci/plugins/jobimport/RemoteItemImportStatus.java:75-86 | true exactly for the same entry or one whose item has the same impl and full name; throws exactly when this entry has no item and the other is a distinct entry |
| ItemImportStatus.RemoteItemImportStatus.HashCode | src/main/java/org/jenkins/ci/plugins/jobimport/RemoteItemImportStatus.java:88-91 | defined exactly when there is an item, and a 32-bit `int` |
| ItemImportStatus.EqualsImpliesSameHash | src/main/java/org/jenkins/ci/plugins/jobimport/RemoteItemImportStatus.java:75-91 | equal entries hash equally |
| ItemImportStatus.CompareToIgnoresImpl | src/main/java/org/jenkins/ci/plugins/jobimport/RemoteItemImportStatus.java:67-86 | entries whose items share a full name but not an impl compare as zero without being equal |
| LegacyJobs.CompareNames | src/main/java/org/jenkins/ci/plugins/jobimport/RemoteJob.java:84 | throws exactly on a null name; otherwise zero exactly on equal names, and the sign is the lexicographic order |
| LegacyJobs.NameHash | src/main/java/org/jenkins/ci/plugins/jobimport/RemoteJob.java:102 | defined exactly for a non-null name, and a 32-bit `int` |
| LegacyJobs.RemoteJob.Empty | src/main/java/org/jenkins/ci/plugins/jobimport/RemoteJob.java:36-38 | every field null |
| LegacyJobs.RemoteJob.Named | src/main/java/org/jenkins/ci/plugins/jobimport/RemoteJob.java:40-42 | the name; url and description null |
| LegacyJobs.RemoteJob.WithUrl | src/main/java/org/jenkins/ci/plugins/jobimport/RemoteJob.java:44-46 | name and url; description null |
| LegacyJobs.RemoteJob.constructor | src/main/java/org/jenkins/ci/plugins/jobimport/RemoteJob.java:48-53 | the three fields as given |
| LegacyJobs.RemoteJob.SetName | src/main/java/org/jenkins/ci/plugins/jobimport/RemoteJob.java:59-61 | only the name changes |
| LegacyJobs.RemoteJob.SetUrl | src/main/java/org/jenkins/ci/plugins/jobimport/RemoteJob.java:67-69 | only the url changes |
| LegacyJobs.RemoteJob.SetDescription | src/main/java/org/jenkins/ci/plugins/jobimport/RemoteJob.java:75-77 | only the description changes |
| LegacyJobs.RemoteJob.CompareTo | src/main/java/org/jenkins/ci/plugins/jobimport/RemoteJob.java:79-85 | zero exactly for the same object or an equal non-null name; throws exactly for distinct jobs with a null name; otherwise the names' order |
| LegacyJobs.RemoteJob.Equals | src/main/java/org/jenkins/ci/plugins/jobimport/RemoteJob.java:87-98 | true exactly for the same object or another job of equal non-null name, whatever url and description; throws exactly when a distinct job meets a null name |
| LegacyJobs.RemoteJob.HashCode | src/main/java/org/jenkins/ci/plugins/jobimport/RemoteJob.java:100-103 | defined exactly for a non-null name |
| LegacyJobs.EqualsImpliesSameHash | src/main/java/org/jenkins/ci/plugins/jobimport/RemoteJob.java:87-103 | equal jobs hash equally |
| LegacyJobs.CompareToAgreesWithEquals | src/main/java/org/jenkins/ci/plugins/jobimport/RemoteJob.java:79-98 | for named jobs `compareTo` is zero exactly when `equals` holds |
| LegacyJobs.CompareToIsOrder | src/main/java/org/jenkins/ci/plugins/jobimport/RemoteJob.java:79-85 | on named jobs `compareTo` is antisymmetric and transitive |
| LegacyJobs.ManyJobsAreNamed | src/main/java/org/jenkins/ci/plugins/jobimport/RemoteJob.java:79-85 | a set of two or more jobs holds no null name, since comparing one throws |
| LegacyJobs.Insert | src/main/java/org/jenkins/ci/plugins/jobimport/RemoteJob.java:79-85 | insertion into a name-ordered set keeps every job, adds none but the new one, and grows by at most one |
| LegacyJobs.AddJob | src/main/java/org/jenkins/ci/plugins/jobimport/JobImportAction.java:182 | `TreeSet.add` throws exactly when the set is non-empty and a null name takes part; otherwise every job is kept and only the new one can be added |
| LegacyJobs.InsertKeepsSet | src/main/java/org/jenkins/ci/plugins/jobimport/RemoteJob.java:79-85 | inserting a named job keeps the set ordered, adds its name, leaves the set unchanged when the name is present, and otherwise adds exactly that job |
| LegacyJobs.AddJobKeepsSet | src/main/java/org/jenkins/ci/plugins/jobimport/JobImportAction.java:182 | a successful `TreeSet.add` keeps the set ordered, adds the name, and keeps the first job of a name |
| LegacyJobs.AddAll | src/main/java/org/jenkins/ci/plugins/jobimport/RemoteJobUtils.java:196 | a successful `addAll` keeps every job and adds only jobs of the other set; a null name in a non-empty target with something to add makes it throw |
| LegacyJobs.AddAllIsUnion | src/main/java/org/jenkins/ci/plugins/jobimport/RemoteJobUtils.java:196 | a successful `addAll` is the union by name: nothing present is lost, and everything comes from one side |
| LegacyJobs.AddAllIntoEmpty | src/main/java/org/jenkins/ci/plugins/jobimport/action/JobImportAction.java:245 | adding a whole set to an empty set copies it |
| LegacyJobs.AddAllAppends | src/main/java/org/jenkins/ci/plugins/jobimport/RemoteJobUtils.java:196 | adding to a non-empty set a set whose jobs all come after it appends them |
| LegacyImportStatus.RemoteJobImportStatus.Empty | src/main/java/org/jenkins/ci/plugins/jobimport/RemoteJobImportStatus.java:35-37 | no job and no status |
| LegacyImportStatus.RemoteJobImportStatus.Of | src/main/java/org/jenkins/ci/plugins/jobimport/RemoteJobImportStatus.java:39-41 | the job, no status |
| LegacyImportStatus.RemoteJobImportStatus.constructor | src/main/java/org/jenkins/ci/plugins/jobimport/RemoteJobImportStatus.java:43-47 | the job and the status |
| LegacyImportStatus.RemoteJobImportStatus.SetRemoteJob | src/main/java/org/jenkins/ci/plugins/jobimport/RemoteJobImportStatus.java:53-55 | only the job changes |
| LegacyImportStatus.RemoteJobImportStatus.SetStatus | src/main/java/org/jenkins/ci/plugins/jobimport/RemoteJobImportStatus.java:61-63 | only the status changes |
| LegacyImportStatus.RemoteJobImportStatus.CompareTo | src/main/java/org/jenkins/ci/plugins/jobimport/RemoteJobImportStatus.java:65-71 | zero exactly for the same entry or equal jobs; throws for distinct entries when a job is missing; negative exactly when this job's name comes first |
| LegacyImportStatus.RemoteJobImportStatus.Equals | src/main/java/org/jenkins/ci/plugins/jobimport/RemoteJobImportStatus.java:73-84 | true exactly for the same entry or one whose job equals this one's; false for anything that is not an entry |
| LegacyImportStatus.RemoteJobImportStatus.HashCode | src/main/java/org/jenkins/ci/plugins/jobimport/RemoteJobImportStatus.java:86-89 | defined exactly when there is a job with a non-null name |
| LegacyImportStatus.EqualsImpliesSameHash | src/main/java/org/jenkins/ci/plugins/jobimport/RemoteJobImportStatus.java:73-89 | equal entries hash equally |
| LegacyImportStatus.CompareToIsOrder | src/main/java/org/jenkins/ci/plugins/jobimport/RemoteJobImportStatus.java:65-71 | on entries with named jobs `compareTo` is antisymmetric and transitive |
| LocalJenkins.AfterCreate | src/main/java/org/jenkins/ci/plugins/jobimport/JobImportAction.java:117 | creation adds at most the new name; the name is present afterwards exactly when it was before, or the item was created or left behind by a failure |
| LocalJenkins.Rollback | src/main/java/org/jenkins/ci/plugins/jobimport/JobImportAction.java:129-139 | the exception status is kept; an IOException escapes exactly when an item of the name exists and its deletion fails; the item is gone exactly when its deletion succeeded; no other item changes |
| RemoteJobUtils.Opens | src/main/java/org/jenkins/ci/plugins/jobimport/RemoteJobUtils.java:195-211 | a recognised root opens a document only when it starts with `<`, the tag and `>` |
| RemoteJobUtils.ProjectJob | src/main/java/org/jenkins/ci/plugins/jobimport/RemoteJobUtils.java:92-107 | a job exactly when the document opens with the project's root tag, built from the three values read |
| RemoteJobUtils.ProjectBranch | src/main/java/org/jenkins/ci/plugins/jobimport/RemoteJobUtils.java:199-201 | the set of a single-project branch is ordered and holds no null name |
| RemoteJobUtils.ParseJobs | src/main/java/org/jenkins/ci/plugins/jobimport/RemoteJobUtils.java:185-216 | an ordered set without null names; empty for an empty document or one with no recognised root tag |
| RemoteJobUtils.ListBranch | src/main/java/org/jenkins/ci/plugins/jobimport/RemoteJobUtils.java:195-197 | the set of a listing branch is ordered and holds no null name |
| RemoteJobUtils.JobList | src/main/java/org/jenkins/ci/plugins/jobimport/RemoteJobUtils.java:109-128 | empty for a document with another root; otherwise an ordered set without null names |
| RemoteJobUtils.SubJobs | src/main/java/org/jenkins/ci/plugins/jobimport/RemoteJobUtils.java:109-128 | the jobs behind one listed url form an ordered set without null names |
| RemoteJobUtils.Gather | src/main/java/org/jenkins/ci/plugins/jobimport/RemoteJobUtils.java:109-128 | merging the jobs behind each listed url keeps an ordered set without null names |
| RemoteJobUtils.OneRootAtMost | src/main/java/org/jenkins/ci/plugins/jobimport/RemoteJobUtils.java:195-213 | at most one recognised root tag opens a document, so the order of the tests does not matter |
| RemoteJobUtils.ProjectDocument | src/main/java/org/jenkins/ci/plugins/jobimport/RemoteJobUtils.java:199-212 | a single-project document whose values can be read yields exactly the one job built from them |
| RemoteJobUtils.ListingDocument | src/main/java/org/jenkins/ci/plugins/jobimport/RemoteJobUtils.java:195-204 | a `<hudson>` or `<listView>` document yields exactly the merge of its listing branch |
| RemoteJobUtils.GatherIsUnion | src/main/java/org/jenkins/ci/plugins/jobimport/RemoteJobUtils.java:109-149 | a successful merge fetched every listed url; it holds every name found and only jobs found behind some listed url |
| RemoteJobUtils.FromXml | src/main/java/org/jenkins/ci/plugins/jobimport/RemoteJobUtils.java:185-216 | the dispatcher computes exactly `ParseJobs` |
| RemoteJobUtils.FromJobListXml | src/main/java/org/jenkins/ci/plugins/jobimport/RemoteJobUtils.java:130-149 | the listing loop computes exactly `JobList` |
| JobImportAction.LoginOf | src/main/java/org/jenkins/ci/plugins/jobimport/JobImportAction.java:163-172 | the stored credentials' user and password when a credential id is given and found; the form's user and password otherwise |
| JobImportAction.Listed | src/main/java/org/jenkins/ci/plugins/jobimport/JobImportAction.java:180-182 | a listed element gives a job whose description is never null ("" without a single description), whose name and url are present exactly with a single such tag |
| JobImportAction.Collect | src/main/java/org/jenkins/ci/plugins/jobimport/JobImportAction.java:178-183 | the listing loop keeps every job already collected and adds only jobs built from listed elements |
| JobImportAction.Query | src/main/java/org/jenkins/ci/plugins/jobimport/JobImportAction.java:175-189 | an ordered set; empty for an empty url; non-empty only after a successful fetch; every job has a non-null description and is built from a listed element |
| JobImportAction.CollectIsListing | src/main/java/org/jenkins/ci/plugins/jobimport/JobImportAction.java:179-183 | the listing loop keeps an ordered set, keeps every job already in it, and adds only jobs built from listed elements |
| JobImportAction.ListedJobs | src/main/java/org/jenkins/ci/plugins/jobimport/JobImportAction.java:180-182 | one job per listed element, in listing order |
| JobImportAction.CollectAgreesWithAddAll | src/main/java/org/jenkins/ci/plugins/jobimport/JobImportAction.java:179-183 | when no add throws, the loop collects exactly what `addAll` of the whole listing gives |
| JobImportAction.UnnamedJobEndsListing | src/main/java/org/jenkins/ci/plugins/jobimport/JobImportAction.java:182 | an unnamed job met once the set is non-empty ends the loop, dropping it and all that follow |
| JobImportAction.ListJobs | src/main/java/org/jenkins/ci/plugins/jobimport/JobImportAction.java:178-183 | the loop leaves an ordered set, exactly `Collect` from the empty set |
| JobImportAction.FirstWithUrl | src/main/java/org/jenkins/ci/plugins/jobimport/JobImportAction.java:221-225 | the first position whose url is the one sought; none earlier has it |
| JobImportAction.FindByUrl | src/main/java/org/jenkins/ci/plugins/jobimport/JobImportAction.java:219-229 | a job exactly when the url is non-empty and some job has it, and then the first such job in set order |
| JobImportAction.Transfer | src/main/java/org/jenkins/ci/plugins/jobimport/JobImportAction.java:113-144 | success exactly when the fetch succeeds and the creation returns; otherwise an exception status, a rollback of the name, and no other item touched |
| JobImportAction.TryImport | src/main/java/org/jenkins/ci/plugins/jobimport/JobImportAction.java:113-144 | the `try`/`catch` computes exactly `Transfer` |
| JobImportAction.ImportOne | src/main/java/org/jenkins/ci/plugins/jobimport/JobImportAction.java:100-146 | an unknown url changes nothing; otherwise the job's name gets an entry (an existing entry keeps its job), no other entry and no other name changes, and the ledger stays well formed |
| JobImportAction.ImportAll | src/main/java/org/jenkins/ci/plugins/jobimport/JobImportAction.java:99-147 | the loop keeps the ledger well formed and stops at an escaped exception |
| JobImportAction.Import | src/main/java/org/jenkins/ci/plugins/jobimport/JobImportAction.java:93-152 | the ledger is cleared and stays well formed; without discovered jobs or `jobUrl` parameters nothing else happens |
| JobImportAction.DuplicateFetchesNothing | src/main/java/org/jenkins/ci/plugins/jobimport/JobImportAction.java:108-110 | a job whose name is taken locally is marked duplicate, and nothing is fetched, created or deleted |
| JobImportAction.ImportOneOutcome | src/main/java/org/jenkins/ci/plugins/jobimport/JobImportAction.java:108-144 | the status of one pass: duplicate, success exactly after a fetch and a creation, or an exception after which the name is gone unless its deletion failed |
| JobImportAction.ImportOneRespects | src/main/java/org/jenkins/ci/plugins/jobimport/JobImportAction.java:100-146 | one pass removes no existing item, marks an existing name as duplicate, and records success only for new items |
| JobImportAction.ImportAllRespects | src/main/java/org/jenkins/ci/plugins/jobimport/JobImportAction.java:99-147 | the loop keeps those facts |
| JobImportAction.ImportKeepsExistingItems | src/main/java/org/jenkins/ci/plugins/jobimport/JobImportAction.java:93-152 | an import removes no existing item, marks every taken name as duplicate, and records success only for items it created |
| JobImportAction.MatchedNamesIff | src/main/java/org/jenkins/ci/plugins/jobimport/JobImportAction.java:99-101 | a name is matched exactly when some `jobUrl` finds a job of that name |
| JobImportAction.ImportAllCoversUrls | src/main/java/org/jenkins/ci/plugins/jobimport/JobImportAction.java:99-104 | without an escaped exception the ledger's keys are the old keys plus exactly the matched names |
| JobImportAction.JobImportAction.constructor | src/main/java/org/jenkins/ci/plugins/jobimport/JobImportAction.java:77-82 | nothing queried, nothing imported |
| JobImportAction.JobImportAction.DoClear | src/main/java/org/jenkins/ci/plugins/jobimport/JobImportAction.java:84-91 | url, login, jobs and ledger all cleared |
| JobImportAction.JobImportAction.DoQuery | src/main/java/org/jenkins/ci/plugins/jobimport/JobImportAction.java:154-192 | keeps the form's url and credential id and the resolved login, clears the ledger, and leaves exactly the jobs `Query` gives |
| JobImportAction.JobImportAction.GetRemoteJobs | src/main/java/org/jenkins/ci/plugins/jobimport/JobImportAction.java:219-229 | the loop returns exactly `FindByUrl` |
| JobImportAction.JobImportAction.ImportUrl | src/main/java/org/jenkins/ci/plugins/jobimport/JobImportAction.java:100-146 | one pass updates the ledger and items exactly as `ImportOne` |
| JobImportAction.JobImportAction.DoImport | src/main/java/org/jenkins/ci/plugins/jobimport/JobImportAction.java:93-152 | the ledger, items and escaped exception afterwards are exactly `Import`'s; nothing else changes |
| ActionJobImportAction.IsValidProject | src/main/java/org/jenkins/ci/plugins/jobimport/action/JobImportAction.java:196-210 | true exactly for a non-null text containing `<project>` or `<maven2-moduleset>` |
| ActionJobImportAction.IsValidProjectOccurs | src/main/java/org/jenkins/ci/plugins/jobimport/action/JobImportAction.java:196-210 | a text is valid exactly when one of the two tags occurs at some index |
| ActionJobImportAction.Filter | src/main/java/org/jenkins/ci/plugins/jobimport/action/JobImportAction.java:313-322 | a single filter is empty exactly for a blank value |
| ActionJobImportAction.FilterRoundTrip | src/main/java/org/jenkins/ci/plugins/jobimport/action/JobImportAction.java:313-322 | a single filter is empty exactly for a blank value; otherwise the value reads back unchanged from it |
| ActionJobImportAction.JoinUpToTwo | src/main/java/org/jenkins/ci/plugins/jobimport/action/JobImportAction.java:296 | joining none, one or two filters gives "", the filter, or both around the separator |
| ActionJobImportAction.KeptFiltersJoined | src/main/java/org/jenkins/ci/plugins/jobimport/action/JobImportAction.java:284-296 | the kept filters joined are blank exactly when both values are; otherwise the one non-blank filter, or both around `%20or%20` with the administrator's first |
| ActionJobImportAction.XpathFilters | src/main/java/org/jenkins/ci/plugins/jobimport/action/JobImportAction.java:276-305 | empty exactly when both values are blank; otherwise `?exclude=//job[`, the non-blank filters with the administrator's first joined by `%20or%20`, and `]` |
| ActionJobImportAction.TrimKeepsFilters | src/main/java/org/jenkins/ci/plugins/jobimport/action/JobImportAction.java:239 | trimming the filters never changes them |
| ActionJobImportAction.QueryUrl | src/main/java/org/jenkins/ci/plugins/jobimport/action/JobImportAction.java:239-241 | the remote url, `/api/xml`, then the filters |
| ActionJobImportAction.Query | src/main/java/org/jenkins/ci/plugins/jobimport/action/JobImportAction.java:219-257 | empty for an empty url; otherwise all the jobs loaded from the query url, or none after a caught exception |
| ActionJobImportAction.FirstWithUrl | src/main/java/org/jenkins/ci/plugins/jobimport/action/JobImportAction.java:343-347 | the first position whose url is the one sought; none earlier has it |
| ActionJobImportAction.FindByUrl | src/main/java/org/jenkins/ci/plugins/jobimport/action/JobImportAction.java:341-351 | a job exactly when the url is non-empty and some job has it, and then the first such job in set order |
| ActionJobImportAction.ImportedName | src/main/java/org/jenkins/ci/plugins/jobimport/action/JobImportAction.java:129-132 | the request's new name when it is not blank, else the job's own; null only when the job's name is |
| ActionJobImportAction.Rewrite | src/main/java/org/jenkins/ci/plugins/jobimport/action/JobImportAction.java:145-156 | a blank pattern leaves the configuration as it is; an invalid pattern fails first, even on a null configuration; a valid one fails on a null configuration with a NullPointerException; a successful replacement gives a non-null text |
| ActionJobImportAction.Config | src/main/java/org/jenkins/ci/plugins/jobimport/action/JobImportAction.java:142-156 | a failed fetch is the outcome; success needs a successful fetch; without a pattern the fetched text is kept as is |
| ActionJobImportAction.Transfer | src/main/java/org/jenkins/ci/plugins/jobimport/action/JobImportAction.java:139-187 | success exactly when fetch, rewrite and validity test pass and the creation returns; not-a-project exactly for an invalid configuration, which creates nothing; otherwise an exception status and a rollback of the name |
| ActionJobImportAction.ImportOne | src/main/java/org/jenkins/ci/plugins/jobimport/action/JobImportAction.java:122-188 | an unknown url changes nothing; otherwise the job's full name gets an entry, only that entry and the imported name can change, and the ledger stays well formed |
| ActionJobImportAction.ImportAll | src/main/java/org/jenkins/ci/plugins/jobimport/action/JobImportAction.java:121-190 | the loop keeps the ledger well formed and stops at an escaped exception |
| ActionJobImportAction.Import | src/main/java/org/jenkins/ci/plugins/jobimport/action/JobImportAction.java:102-194 | the ledger is cleared and stays well formed; without discovered jobs or `job.url` parameters nothing else happens |
| ActionJobImportAction.DuplicateFetchesNothing | src/main/java/org/jenkins/ci/plugins/jobimport/action/JobImportAction.java:129-137 | a taken imported name is marked duplicate, and nothing is fetched, rewritten, created or deleted |
| ActionJobImportAction.InvalidConfigCreatesNothing | src/main/java/org/jenkins/ci/plugins/jobimport/action/JobImportAction.java:158-166 | an invalid configuration is marked not-a-project, and nothing is created or deleted |
| ActionJobImportAction.ImportOneOutcome | src/main/java/org/jenkins/ci/plugins/jobimport/action/JobImportAction.java:129-187 | success exactly for a free imported name after fetch, rewrite, a valid project and a creation, which then adds the name; after an exception the name is gone unless its deletion failed |
| ActionJobImportAction.ImportAllKeepsItems | src/main/java/org/jenkins/ci/plugins/jobimport/action/JobImportAction.java:121-190 | the loop removes no item that existed before it |
| ActionJobImportAction.ImportKeepsExistingItems | src/main/java/org/jenkins/ci/plugins/jobimport/action/JobImportAction.java:102-194 | an import removes no existing local item |
| ActionJobImportAction.MatchedFullNamesIff | src/main/java/org/jenkins/ci/plugins/jobimport/action/JobImportAction.java:121-127 | a full name is matched exactly when some request's `job.url` finds a job of that full name |
| ActionJobImportAction.ImportAllCoversUrls | src/main/java/org/jenkins/ci/plugins/jobimport/action/JobImportAction.java:121-127 | without an escaped exception the ledger's keys are the old keys plus exactly the matched full names |
| ActionJobImportAction.JobImportAction.constructor | src/main/java/org/jenkins/ci/plugins/jobimport/action/JobImportAction.java:86-92 | nothing queried, nothing imported |
| ActionJobImportAction.JobImportAction.DoClear | src/main/java/org/jenkins/ci/plugins/jobimport/action/JobImportAction.java:94-100 | url, jobs and ledger cleared; the job filter kept |
| ActionJobImportAction.JobImportAction.DoQuery | src/main/java/org/jenkins/ci/plugins/jobimport/action/JobImportAction.java:212-260 | keeps the form's url and job filter, clears the ledger, and leaves exactly the jobs `Query` gives |
| ActionJobImportAction.JobImportAction.GetRemoteJobs | src/main/java/org/jenkins/ci/plugins/jobimport/action/JobImportAction.java:341-351 | the loop returns exactly `FindByUrl` |
| ActionJobImportAction.JobImportAction.TryImport | src/main/java/org/jenkins/ci/plugins/jobimport/action/JobImportAction.java:139-187 | the `try`/`catch` computes exactly `Transfer` |
| ActionJobImportAction.JobImportAction.ImportRequestOnce | src/main/java/org/jenkins/ci/plugins/jobimport/action/JobImportAction.java:122-188 | one pass updates the ledger and items exactly as `ImportOne` |
| ActionJobImportAction.JobImportAction.DoImport | src/main/java/org/jenkins/ci/plugins/jobimport/action/JobImportAction.java:102-194 | the ledger, items and escaped exception afterwards are exactly `Import`'s; nothing else changes |

## Left out

- HTTP, XML parsing, XPath evaluation, credentials look-up, the JenkinsInstance search and `getPlugin()` are oracles passed in as parameters. Their exceptions are `Failure` values.
- Strings are sequences of Unicode scalar values. Java's unit-level operations (`compareTo`, `hashCode`, `escapeHtml`'s numeric references, the 4096-unit cut) go through their UTF-16 form `JavaStrings.Utf16`. Other unit-level behaviour, such as a lone surrogate in a string, is not modelled.
- The regular-expression replacement of the `action` import (`Pattern.compile` and the `Matcher` loop) is the pair of oracles `Host.compile` (the exception an invalid pattern raises) and `Host.replaceAll`.
- `createProjectFromXML` and `Item.delete` are oracles: `Creation` and `Deletion`.
- `getItem` is a name look-up in a set. Jenkins' case-insensitive item names are not modelled.
- Logging, Stapler redirects and forwards, permissions, input-stream closing and concurrency are left out.
- The actions' `TreeSet` and `TreeMap` are values owned by the action. Aliasing with the getters' callers is not modelled.
- RestApiClient.Discover: folder nesting is followed to a depth bounded by `fuel`. Past it, a folder is not expanded.
- RemoteJobUtils.ParseJobs: the recursion from listings into sub-documents is bounded by `fuel`. Past it, the model reports a failure.
- RemoteModel.Build: a null url is the empty string. The newest model reads only the url's trimmed text.
- The private `RemoteItemUtils.fullName(item, name)` is unused by the source and is not modelled.
- RemoteModel.RemoteTree.AddChild requires the child to name the folder as its parent. This holds at the only call site, `getRemoteItems`.
- ItemText.EscapeChar: only the four HTML basic entities are escaped by name. Other named entities of HTML 4.0 (`&eacute;`, …) are written as numeric references.
- ActionJobImportAction.Job: the `action` package reads `model.RemoteJob` items produced by `util.RemoteJobUtils.fromXml`. That `fromXml` is not part of this model. The loaded set is the oracle result of `Query`.
- ActionJobImportAction.Ledger: keyed by full name. The NullPointerException a null full name would raise inside the `TreeMap` is not modelled.
- ActionJobImportAction.Query: runtime exceptions other than the five caught types are treated as caught.
- JobImportAction.Transfer: an exception's message is taken to be non-null.
- LocalJenkins.AfterCreate: creation under a null name may report `Created` while adding no item.
- The local Jenkins' `getItem(null)` finds nothing.
- The `client/RestApiClient.getRemoteItems` split of the reported URL on `job` follows the code. It cuts at every `job`, including one inside a job's own name.
- A NullPointerException's message is written as the exception's class name. Java may instead give a null or a more detailed message.
- ActionJobImportAction.Query: the loaded jobs are the sequence the oracle `load` returns, taken as it is. The `TreeSet` that `fromXml` returns and `addAll` copies is unique and ordered by full name; that order is not imposed on the sequence, so `FindByUrl` finds the first match in the oracle's order.
