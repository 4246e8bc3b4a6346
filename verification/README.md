# Proofs about the NX809J device tree's scripts, daemon and parsers

A model of the code in this device tree that computes something, with proofs of what it promises.
`dafny verify dfyconfig.toml` (Dafny 4.11) checks all of it.

| part of the tree | modules |
|---|---|
| text scanners and AIDL decision (`verify_aidl_versions.py`, `verify_cc_libs.py`) | `Text`, `Brackets`, `SoongScanner`, `SoongFiles`, `SoongFields`, `SoongPrinter`, `SoongDecls`, `SoongMentions`, `AidlVersions`, `AidlRoundTrip`, `AidlLookup`, `AidlDecision`, `AidlFreezing`, `AidlBasenames`, `AidlText`, `CcScanner`, `CcFiles`, `CcLibs`, `CcText` |
| blob-list generator (`closure.py`) | `Sorting`, `Grouping`, `DumpWalk`, `BlobSections`, `ModuleRenames`, `BlobList`, `BypassMakefile`, `ClosureRun` |
| double tap to wake (`dt2w/`) | `UeventScan`, `WakeDaemon`, `WakeProtocol`, `WakeRuns`, `WakeRefinement` |
| hex payload parser (`tools/goodix_calib/goodix_calib.cpp`) | `HexPayload` |
| writeback alignment (`patches/display-source-build/formats.cpp`) | `CwbAlignment` |

Loops are methods over the same variables as the originals; each is proved equal to a specification
function, and the properties are lemmas about that function. The wake daemon is a class over its
property, its input device and its counters; its interplay with driver, kernel and init is a step
relation with arbitrary interleaving. Soong files are modelled as data with a canonical printed
form, so that the scanners and parsers can be proved to invert printing. Files are texts, dumps are
lists of paths with a link flag in whatever order a walk meets them, the literal tables and fixed
comment headers of the scripts are parameters, and failing system calls are choices of the
environment.

## Where the code and its documentation differ

- `closure.py:13` promises that a rerun yields the same file. The loader does not remove
  `;MODULE=`, `;DISABLE_DEPS`, `;OVERRIDES=` or `:dst;FIX_SONAME` from a line, so a path with such a
  mark loses its `-` or `;` on the first rerun. `BlobList.RegenerationSettles` gives the exact condition
  and `BlobList.RerunCanDiffer` a failing old list for every list with a marked path.
- A file that `EXCLUDE_*`, or an unhandled directory, keeps out of the list is
  still copied by the makefile when it lies under a bypass prefix (`DumpWalk.ListsAreDisjoint`).
- `compute_module_renames` leaves the library directory out of the name, so equal subdirectories under
  `lib` and `lib64` share a name (`ModuleRenames.LibraryDirsCollide`), underscores collide with nesting
  (`ModuleRenames.JoinedDirsCollide`), and it drops what follows the last dot, so `x.so.1` and `x.so.2` collide
  (`ModuleRenames.ExtensionsCollide`). `ModuleRenames.NamesAgreeIff` says exactly which files share a name.
- `dt2w_uewake.c:142` says the driver "has (or is about to)" clear the arm when the notice arrives. If
  it is still about to when init writes the re-arm, the write is refused and the panel ends up unarmed with
  nothing under way (`WakeRuns.EarlyNoticeBreaksPromise`) until the poll timeout (`WakeRuns.RepairedIsArmed`).
  A notice that comes early but not that early does no harm (`WakeProtocol.UnnoticedResumeKeepsPromiseIff`,
  `WakeRuns.EarlyNoticeInTime`).
- Disabling writes 0 to the gesture node, but an arm pulse that straddles the switch can leave 1 there until
  the next resume (`WakeRuns.DisableMayLeaveArmedUntilResume`; `WakeRuns.LeftArmedIff` for exactly when).
- A lookup by name can return another block than the one named: the first block of a matching kind that quotes
  the name under its own brace, such as an interface that lists it in `imports` or the
  `aidl_interface_defaults` block of that name (`SoongFiles.FirstHitWins`,
  `AidlLookup.DefaultsShadowInterface`); `SoongFiles.LookupEndsInTargetIff` and
  `SoongMentions.NamedIsFoundIff` say exactly when.
- An empty string in a defaults list makes the script read the separator behind it as a name and skip the next one
  (`AidlLookup.EmptyNameIsMisread`).
- Freezing changes no decision, except that the version it puts into a list of strings hides a later interface of
  that very name (`AidlFreezing.OtherInterfaceIsFoundIff`).
- The block returned for a name need not contain the name: it ends before it exactly when a closing
  brace stands in between (`SoongScanner.BlockHoldsNameIff`).
- A literal `vendor_available: false` of a library is overruled by a listed default (`CcLibs.ExtractCcBlock`).
- `ParseHex` takes a lone byte written `0xNN` for two packed bytes
  (`HexPayload.SingleByteRoundTripsUnlessMarked`).
- The alignment factor of 8-bit alpha is 0, "no alignment", although its pixels fill 256-byte units only in
  multiples of 256 (`CwbAlignment.FactorZero`).

## Model

| member | source | states |
|---|---|---|
| Brackets.FindMatchEnd | verify_aidl_versions.py:148-155 | the depth loop stops at the end of the shortest balanced slice, or at the end of the text, and returns the depth there |
| Brackets.MatchEndIsUnique | verify_aidl_versions.py:187-198 | the shortest balanced slice from a bracket, or the whole tail, is unique |
| Brackets.BracketedMatches | verify_aidl_versions.py:187-198 | a bracketed text whose inside pairs up is matched exactly, wherever it stands and whatever follows |
| SoongScanner.ExtractNamedBlock | verify_aidl_versions.py:126-156 | the search loop terminates and returns the slice from the nearest brace before the first qualifying occurrence, or None |
| SoongScanner.PicksFirstQualifying | verify_aidl_versions.py:131-147 | of the non-overlapping left-to-right occurrences the first qualifying one is taken; None exactly when none qualifies |
| SoongScanner.BlockHoldsNameIff | verify_aidl_versions.py:136-156 | the slice covers the quoted name if no closing brace lies between brace and name, and ends before it otherwise |
| SoongFiles.OccurrenceInOtherBlock | verify_aidl_versions.py:137-147 | a quoted name inside a printed block none of whose quotations is a hit never qualifies and never reaches past the block |
| SoongFiles.FirstHitWins | verify_aidl_versions.py:126-156 | in any printed file the first block with a hit decides, be it the one named or not: it is returned whole when the hit stands under its own brace, else the group around the hit is |
| SoongFiles.PrintedLookup | verify_aidl_versions.py:126-156 | so the lookup returns exactly the block of the target wherever it stands, when no quotation in an earlier block is a hit |
| SoongFiles.AmbiguousHasFirstHit | verify_aidl_versions.py:131-147 | a block with any hit has one the scan arrives at, overlapping quotations notwithstanding |
| SoongFiles.LookupEndsInTargetIff | verify_aidl_versions.py:126-156 | the scan ends at the target's own name if and only if no block before the target has a hit |
| SoongFiles.LookupFailsIff | verify_aidl_versions.py:132-135 | and it finds nothing if and only if no block has a hit |
| SoongFields.SkipField | verify_aidl_versions.py:203 | a field with another name, or another kind of value, is read past: no other place in it can match the key |
| SoongFields.HitField | verify_aidl_versions.py:203 | the first field with the key and kind of value is the one found, from its value on |
| SoongFields.QuietHasNoValue | verify_aidl_versions.py:203 | text in which no colon that follows a word or white space has a value behind it holds no value for any key |
| SoongFields.WordsAre | verify_aidl_versions.py:203 | the characters a key may be part of: letters, digits and the underscore |
| SoongPrinter.StringsAreQuiet | verify_aidl_versions.py:203 | a printed list of strings never shows a field to the search, colons like those in `//apex_available:platform` included |
| SoongPrinter.NoFlagWordIsPlain | verify_aidl_versions.py:247-256 | without quotes and brackets a string can only be mistaken for a field if it says true or false |
| Text.DecRoundTrip | verify_aidl_versions.py:244 | every natural number is recovered from its decimal numeral |
| Text.NumeralsAreSpelled | verify_aidl_versions.py:244 | a numeral is its digits in order |
| Text.NumeralsAreRead | verify_aidl_versions.py:244 | and is read digit by digit, ten times what came before |
| Text.SpacesAre | verify_aidl_versions.py:144 | the characters that count as white space, one by one |
| SoongPrinter.SearchField | verify_aidl_versions.py:247-256 | searching printed text either ends at a field or goes on behind its colon |
| AidlVersions.MatchBracket | verify_aidl_versions.py:187-198 | returns the end of the balanced slice, or -1 exactly when it never balances |
| AidlVersions.ExtractField | verify_aidl_versions.py:201-210 | returns the text between the first `field: [` and its own closing bracket |
| AidlVersions.FieldTextIs | verify_aidl_versions.py:201-210 | a bracketed value is read whole: no inner bracket truncates it |
| AidlVersions.WalkVersions | verify_aidl_versions.py:227-240 | the walking loop collects the version literals that stand at depth one, in order |
| AidlVersions.IncreasingIsUnique | verify_aidl_versions.py:258 | the sorted duplicate-free list is determined by its elements |
| AidlVersions.CurrentIsNext | verify_aidl_versions.py:258-264 | there is a current version if and only if some version is listed and the block is neither unstable nor frozen; it is the one after the greatest listed |
| AidlVersions.ParseVersions | verify_aidl_versions.py:213-265 | returns the facts read from the block, and as current version the successor of the greatest listed one exactly for a block that lists a version and is neither unstable nor frozen |
| AidlRoundTrip.NumbersInStrings | verify_aidl_versions.py:243-244 | the quoted numbers found in a printed string list are exactly its numerals |
| AidlRoundTrip.NumbersOfNumerals | verify_aidl_versions.py:243-244 | the numbers among the printed numerals of any versions are those versions |
| AidlRoundTrip.StringsReadBack | verify_aidl_versions.py:241-244 | printing any strings as `versions: [...]` and parsing gives the sorted duplicate-free set of the numerals among them |
| AidlRoundTrip.WalkInfos | verify_aidl_versions.py:227-240 | walking printed version objects collects each object's version once, imports skipped |
| AidlRoundTrip.InfosReadBack | verify_aidl_versions.py:218-240 | printing any `versions_with_info` objects with import lists and parsing gives their sorted duplicate-free version set |
| AidlLookup.ExtractBlock | verify_aidl_versions.py:159-184 | returns the interface block with every listed and found defaults block appended in order |
| AidlLookup.DefaultsReadBackIff | verify_aidl_versions.py:173-176 | the names read from a printed defaults list are the names printed if and only if none is empty |
| AidlLookup.EmptyNameIsMisread | verify_aidl_versions.py:173-176 | after an empty name the separator is read as a name, and the next name is not |
| SoongDecls.FieldsBraces | verify_aidl_versions.py:148-155 | printed fields, nested groups and version objects included, pair up their braces |
| SoongDecls.ApartIsUnambiguous | verify_aidl_versions.py:136-147 | a declaration whose kind and groups do not contain the wanted kind never attracts a lookup, whatever names it quotes |
| SoongMentions.FieldsShow | verify_aidl_versions.py:131-147 | printed fields quote exactly the strings of their data, each behind a name key or not and under the brace as their data say |
| SoongMentions.ClearIffAttracts | verify_cc_libs.py:144-159 | a search by either script can end in a printed declaration if and only if one of its strings, for the library script one behind a key that ends in name, equals the name and the nearest brace before it is declared as wanted |
| SoongMentions.AlmostAllNamesAreSearchable | verify_aidl_versions.py:131 | this is about all names without quotes and braces that do not start with a comma or a closing bracket |
| SoongMentions.NamedIsFoundIff | verify_aidl_versions.py:126-156 | among printed declarations the named one is found if and only if no earlier one says the name under such a brace |
| SoongMentions.LibraryIsFoundIff | verify_cc_libs.py:144-167 | and by the library script if and only if no earlier one says it there behind such a key |
| SoongMentions.ReferencesAreHarmless | verify_cc_libs.py:144-151 | a declaration without a name key of this name never ends the library search, whatever it lists |
| SoongDecls.RewriteKeepsAllNames | verify_aidl_versions.py:176-183 | rewriting such a declaration keeps which declaration of the file every listed default stands for |
| AidlLookup.FactsReadBack | verify_aidl_versions.py:213-265 | parsing the text of printed declarations yields exactly what their fields state, the first field of each key counting |
| SoongDecls.DeclFound | verify_aidl_versions.py:126-156 | a printed declaration with any fields is found under its name, before or after blocks that quote it; of those after it nothing is asked |
| AidlLookup.DefaultsInlined | verify_aidl_versions.py:176-183 | the inlining loop appends exactly the defaults declarations listed, in listed order, and skips missing ones |
| AidlLookup.DefaultsShadowInterface | verify_aidl_versions.py:145-147 | a defaults block before the interface of the same name is returned in its place, as its kind contains `aidl_interface` |
| AidlLookup.PrintedInterface | verify_aidl_versions.py:159-265 | end to end: extracting and parsing an interface of any printed file gives what its own fields and its listed defaults state; the other blocks may hold anything that is no hit |
| AidlDecision.Decide | verify_aidl_versions.py:271-303 | DROP exactly when the version is built and the source vendor-consumable, UNKNOWN exactly without a block; the three counters are the row counts and sum to the rows |
| AidlDecision.BuiltIff | verify_aidl_versions.py:275-287 | a version is built if and only if it is listed or, the block being neither unstable nor frozen, the one after the greatest listed |
| AidlDecision.FreezingKeepsDecisions | verify_aidl_versions.py:258-291 | the current version exceeds every listed one; freezing it leaves the built set and consumability unchanged |
| AidlDecision.FreezingAnotherVersionDrops | verify_aidl_versions.py:259-264 | freezing a version leaves the built set unchanged if and only if it is the current one |
| AidlFreezing.FrozenFirst | verify_aidl_versions.py:247-256 | rewriting the declaration makes frozen read true, puts the version into its own lists and leaves the first field of every other key as it was |
| AidlFreezing.FrozenMeaning | verify_aidl_versions.py:213-265 | rewriting the declaration, a present frozen flag in place, changes the parsed facts as freezing does and nothing else |
| AidlFreezing.FreezingTheFileKeepsDecisions | verify_aidl_versions.py:159-303 | freezing the current version in the source file changes no DROP decision for the interface's own prebuilts, through lookup, defaults and parsing; that the new file reads as well is proved from the old one |
| AidlFreezing.FrozenStaysUnambiguousIff | verify_aidl_versions.py:131-147 | the rewritten declaration attracts a lookup that it did not attract before if and only if the name is spelled like the version and a string list under a wanted brace now says it |
| AidlFreezing.OtherInterfaceIsFoundIff | verify_aidl_versions.py:126-156 | so a later interface of the file is still found if and only if that is not the case |
| AidlFreezing.FreezingKeepsOtherDecisions | verify_aidl_versions.py:159-303 | nor does it change one for the prebuilts of any other interface of the file that is still found |
| AidlText.InterfaceDecided | verify_aidl_versions.py:126-291 | end to end on text: for an interface written with any versions and any of the four flags the prebuilt is dropped exactly when vendor processes may use it and the version is listed or next |
| AidlText.InterfaceWithDefaultsDecided | verify_aidl_versions.py:159-291 | likewise when the flags stand in a defaults block that the interface lists |
| AidlText.InterfaceWithObjectsDecided | verify_aidl_versions.py:213-291 | likewise when the versions are written as objects |
| AidlText.OtherKindIsNotFound | verify_aidl_versions.py:145-147 | a declaration whose kind does not contain aidl_interface is no interface, whatever its name |
| AidlText.OtherDefaultsAreSkipped | verify_aidl_versions.py:176-183 | and one whose kind does not contain aidl_interface_defaults is not inlined |
| AidlText.FreezingOnText | verify_aidl_versions.py:159-291 | end to end on text: adding the next version to the list and setting or adding the frozen flag changes no decision |
| AidlBasenames.ParseIsExact | verify_aidl_versions.py:35-85 | a file name is recognised exactly when it spells domain, family and version, and the parts read are the parts spelled |
| AidlBasenames.NamesAreSpelled | verify_aidl_versions.py:35-85 | the same with every part of the expression spelled out |
| CcScanner.MatchBlock | verify_cc_libs.py:144-167 | the search returns the balanced slice around the first name field under a wanted declaration, or None |
| CcScanner.DeclaredIsLeast | verify_cc_libs.py:144-167 | the search ends at the very first name key with the name that is declared as wanted, though it skips each match it rejects |
| CcScanner.ScannersAgree | verify_cc_libs.py:144-167 | where the quotations that qualify only stand behind a name key, `_match_block` and `_extract_named_block` return the same block |
| CcScanner.SameBrace | verify_cc_libs.py:147-151 | key and quoted name lie under the same opening brace |
| CcLibs.ExtractCcBlock | verify_cc_libs.py:170-197 | the flag is true exactly when the first literal of the own block or of some listed, found defaults block is true |
| CcFiles.PrintedMatch | verify_cc_libs.py:144-167 | in any printed file the library search returns exactly the target block when no earlier block names the name; references in other fields do not matter |
| CcFiles.MatchEndsInTargetIff | verify_cc_libs.py:144-167 | it ends at the target's own name key if and only if no block before the target names the name under a wanted brace |
| CcFiles.MatchFailsIff | verify_cc_libs.py:144-167 | and finds nothing if and only if no block does |
| CcLibs.PrintedLibrary | verify_cc_libs.py:170-197 | end to end: the answer for a library of a printed file is what its declaration and its defaults state, whoever else refers to them |
| CcLibs.AddingDefaultKeepsTrue | verify_cc_libs.py:184-197 | listing one more default in the file never turns the script's answer from true to false: the new answer is true exactly when the old was or the added default states true |
| CcText.LibraryDecided | verify_cc_libs.py:144-197 | end to end on text: a library with a default is usable exactly when one of the two states true |
| CcText.OtherKindIsNone | verify_cc_libs.py:144-167 | a declaration whose kind does not contain cc_library is no library |
| CcText.OtherDefaultsGrantNothing | verify_cc_libs.py:183-196 | and one whose kind does not contain cc_defaults grants nothing |
| Sorting.LessIsTotal | closure.py:1681 | the order of paths is total and irreflexive |
| Sorting.LessIff | closure.py:1681 | the order of strings: a proper prefix first, else the lesser character at the first difference |
| Sorting.PrefixIsConvex | closure.py:1893-1908 | strings with a common prefix are contiguous in the order |
| Sorting.SortAscends | closure.py:1681 | sorting distinct paths gives a strictly ascending list |
| Sorting.SortDependsOnMembers | closure.py:1681 | sorting forgets the order of its input |
| Grouping.GroupBy | closure.py:1828-1830 | the dictionary loop yields the keys in first-seen order and each key's elements in input order |
| Grouping.GroupingKeepsOrderIff | closure.py:1904-1908 | flattening the groups gives the list back if and only if equal keys stand together |
| DumpWalk.EnumerateDump | closure.py:1612-1691 | the list is the sorted kept files; every visible file is listed or counted under one heading, and list and counters sum to the visible files |
| DumpWalk.ListedIff | closure.py:1634-1681 | a file is listed if and only if it is visible, no link, in one of the six partitions, no overlay, no library of an app, in no exclusion table and under no runtime or bypass prefix |
| DumpWalk.CountedInFirstRow | closure.py:1634-1680 | any other visible file is counted under the first of these tests that it fails, with the heading spelled out |
| DumpWalk.UncountedIsKept | closure.py:1634-1680 | and it fails one exactly when it is not kept |
| DumpWalk.PartitionStartsSmall | closure.py:1641-1645 | a path whose first component is a partition name, as for every listed one, starts with a small letter |
| DumpWalk.ListedDependsOnMembers | closure.py:1634-1691 | the list is strictly ascending and depends only on which files the dump holds |
| DumpWalk.CollectBypass | closure.py:1881-1893 | the bypass list is the sorted visible plain files under a bypass prefix |
| DumpWalk.ListsAreDisjoint | closure.py:1634-1680 | no file is both listed and copied; a file is copied exactly when visible, no link and under a bypass prefix |
| BlobSections.SectionLeadsPath | closure.py:1735-1770 | a section is named after leading components of its paths |
| BlobSections.VendorSections | closure.py:1735-1770 | the section of every path below the vendor partition, with the directories that split spelled out |
| BlobSections.OtherSections | closure.py:1735-1770 | and of every other path |
| BlobSections.SectionsInOrder | closure.py:1832-1851 | sections of the table come in its order and before all others, those by name |
| BlobSections.TableOfSections | closure.py:1832-1847 | which is that of configuration, libraries of both widths, binaries and single directories, each before its subdirectories |
| BlobSections.LayOut | closure.py:1827-1875 | the grouping and printing loops produce the layout: sections by key, sorted paths, empty lines |
| BlobSections.LayoutIsSorted | closure.py:1827-1875 | the entries are a permutation of the paths, sorted by section key and then by path |
| BlobSections.LayoutTitles | closure.py:1859-1862 | every entry stands under the title of its own section |
| BlobSections.LayoutTitlesAscend | closure.py:1832-1851 | the titles are exactly the sections with paths, strictly ascending in the section key |
| BlobSections.LayoutDependsOnMembers | closure.py:1827-1875 | any order of the same paths gives the same layout |
| ModuleRenames.StripNumbers | closure.py:1803-1810 | the numeric-extension loop terminates with no numeric extension left |
| ModuleRenames.CutsAtLastDot | closure.py:1802-1810 | a name is cut at its last dot, unless only dots stand before it |
| ModuleRenames.NumbersAreDropped | closure.py:1803-1810 | a number behind the last dot is dropped, again and again, and nothing else is |
| ModuleRenames.ComputeModuleRenames | closure.py:1773-1812 | exactly the paths that share a basename with another, canonical path are renamed, to root plus joined subdirectories |
| ModuleRenames.CanonicalIff | closure.py:1783-1786 | a path is canonical if and only if it is a file directly in a directory of the vendor partition whose name starts with lib |
| ModuleRenames.OtherSubdirs | closure.py:1797-1801 | for any other path all directories after the first enter the name |
| ModuleRenames.NamesAreSpelled | closure.py:1796-1811 | the new name spelled out, with a number before or behind the extension |
| ModuleRenames.OneCanonicalKeepsItsName | closure.py:1783-1793 | for each basename with a canonical copy exactly one path keeps its name, a canonical one; without one, all do |
| ModuleRenames.LastCanonicalKeepsItsName | closure.py:1783-1793 | and it is the last canonical one of the list |
| ModuleRenames.NamesAgreeIff | closure.py:1796-1811 | any two paths get the same name if and only if file stem and directories, cut at underscores, the directories also at dashes and dots, are the same words |
| ModuleRenames.CopiesAgreeIff | closure.py:1796-1811 | for one stem, if and only if the directories are the same words |
| ModuleRenames.NamesTellSubdirs | closure.py:1796-1811 | with plain directory names, if and only if they lie in the same subdirectories |
| ModuleRenames.DeepNamesTellPaths | closure.py:1796-1811 | and under one library directory only if they are the same path |
| ModuleRenames.JoinedDirsCollide | closure.py:1773-1812 | in a list of three copies of a file two different ones are renamed to the same name, for every library directory, file name and pair of directories |
| ModuleRenames.LibraryDirsCollide | closure.py:1773-1812 | so are the copies in equal subdirectories of two library directories |
| ModuleRenames.ExtensionsCollide | closure.py:1773-1812 | and so are, in one directory, files that differ only behind the last dot, such as in a version number |
| BlobList.LoadExistingPrefixes | closure.py:1714-1732 | the loading loop gives each path the marker of the last line that names it, lines ending as text mode has them |
| BlobList.NamedIsLoaded | closure.py:1718-1731 | a path is loaded if and only if some line names it |
| BlobList.LastLineCounts | closure.py:1730-1731 | and of several such lines the last one gives the marker |
| BlobList.LineByLine | closure.py:1718 | a line ends at a line feed, a carriage return or both |
| BlobList.LastLine | closure.py:1718 | the last line needs none |
| BlobList.OldLinesAreRead | closure.py:1718-1731 | what a line says, spelled out for paths with and without marker, blank and pinned hash, comments and empty lines |
| BlobList.IndentIsIgnored | closure.py:1722 | white space in front of a line that is no comment counts for nothing |
| BlobList.EntryLine | closure.py:1863-1874 | one line: marker, path and marks, a new soname replacing all other marks |
| BlobList.LinesAreSpelled | closure.py:1859-1874 | the lines of a path with all marks, with a new soname and with none, of a title and of a gap, spelled out |
| BlobList.EmitProprietaryFiles | closure.py:1815-1875 | the whole text, from the laid-out paths, the markers and the tables |
| BlobList.MarksReadBack | closure.py:1863-1874 | splitting a line at semicolons gives back which tables its path is in, with which values |
| BlobList.EntryReadsBack | closure.py:1718-1731 | an unmarked line is loaded as its path and marker; a marked line never as its path |
| BlobList.ListReadsBack | closure.py:1714-1875 | loading a printed list keeps the marker of every unmarked path and loses that of every marked one |
| BlobList.SameListSameMarkers | closure.py:1863-1874 | equal lists come from equal markers |
| BlobList.RegenerationSettles | closure.py:1714-1875 | from any starting file the second run is a fixed point; the first already is if and only if no marked path had a marker; unmarked paths keep theirs forever |
| BlobList.RerunCanDiffer | closure.py:13 | for every list with a marked path there is an old file after which two runs differ |
| BlobList.ListDependsOnMembers | closure.py:1815-1875 | the list depends only on the set of paths |
| BypassMakefile.EmitBypassMakefile | closure.py:1894-1918 | the emission loops print the groups in order and return the number of files |
| BypassMakefile.CopyIsSpelled | closure.py:1913-1915 | a vendor path is copied to the same place in the vendor image, any other with its partition name below it |
| BypassMakefile.TopIsSpelled | closure.py:1904-1907 | the group of a path: its first two components |
| BypassMakefile.GroupIsSpelled | closure.py:1909-1917 | a group of two files as it stands in the makefile |
| BypassMakefile.TopIsConvex | closure.py:1904-1908 | between two paths with the same first two components all paths have them, in a tree |
| BypassMakefile.GroupingPreservesOrder | closure.py:1904-1908 | flattening the groups of the sorted list gives back the sorted list |
| BypassMakefile.MakefileReadsBack | closure.py:1909-1917 | following the continuation marks gives every file's copy entry exactly once, in order: within a group all lines but the last are continued |
| BypassMakefile.TargetsCollideIff | closure.py:1913-1914 | two entries install to the same place exactly when the paths are equal up to the partition name |
| ClosureRun.Run | closure.py:1921-2015 | one run writes the list and the makefile from the walks and the old list |
| ClosureRun.ManualRenamesWin | closure.py:1817-1820 | the manual renames overrule the computed ones |
| ClosureRun.RunsSettle | closure.py:1612-1875 | for any walk orders of one dump and any old list, every run from the second on writes the same list, with the exact condition for the first; only listed files need names the format can carry |
| ClosureRun.WhatListsNeed | closure.py:1718-1729 | what that asks of a dump, spelled out: each path once, and no listed name with a final blank, semicolon, bar or line end |
| ClosureRun.WhatTablesNeed | closure.py:1855-1874 | and of the tables: no line end, and no bar in a new soname |
| ClosureRun.RunCopiesBypassed | closure.py:1878-1918 | reading the makefile back gives exactly the bypassed files of the dump, ascending |
| ClosureRun.WhatMakefilesNeed | closure.py:1913-1916 | which asks for a dump whose files are no directories, and for no final blank or backslash |
| UeventScan.HasToken | dt2w/dt2w_uewake.c:121-130 | true exactly when the token is one of the NUL-separated segments; no index leaves the buffer's first len bytes |
| UeventScan.HasSubstr | dt2w/dt2w_uewake.c:134-140 | true exactly when the non-empty needle occurs in the first len bytes |
| UeventScan.SubstrIsWithinOneToken | dt2w/dt2w_uewake.c:132-140 | a NUL-free needle occurs exactly when one single segment contains it |
| UeventScan.TokenHitIsSubstrHit | dt2w/dt2w_uewake.c:121-140 | a token hit implies a substring hit for every part of the token |
| UeventScan.IsScreenOnUevent | dt2w/dt2w_uewake.c:143-148 | true exactly when one of the four forms occurs |
| UeventScan.WakingMessages | dt2w/dt2w_uewake.c:143-148 | the double-tap token and the four forms, spelled out |
| UeventScan.ScreenOffNeverWakes | dt2w/dt2w_uewake.c:142-148 | a message with screen-off tokens, and otherwise only tokens that wake neither way, never re-arms |
| UeventScan.ScreenOnNeedsAToken | dt2w/dt2w_uewake.c:143-148 | a screen-on message has a single token that holds one of the forms |
| WakeDaemon.Daemon.ArmGesture | dt2w/dt2w_uewake.c:60-68 | a request sets 0 then 1 whatever the first set returned |
| WakeDaemon.Daemon.InjectWakeup | dt2w/dt2w_uewake.c:90-103 | four writes: key down, sync, key up, sync |
| WakeDaemon.Daemon.HandleTurn | dt2w/dt2w_uewake.c:162-196 | one turn: at most one request with one cause, its pulse added to the property's history as far as the two sets succeed, keys only for a double tap, which takes precedence over screen-on |
| WakeDaemon.Daemon.Run | dt2w/dt2w_uewake.c:150-198 | requests are one plus timeouts plus double taps plus other screen-on messages; the property's history and the keys are one pulse a request and one block a double tap, failed sets and writes left out |
| WakeDaemon.PulsesRise | dt2w/dt2w_uewake.c:60-68 | n requests make the property rise exactly n times, whatever it was before |
| WakeRefinement.TurnRefinesProtocol | dt2w/dt2w_uewake.c:162-196 | each turn of the code, empty datagrams included, is a run of protocol steps with the same effect on socket and property, whichever sets fail |
| WakeProtocol.InitIsConsistent | dt2w/dt2w_uewake.rc:15-31 | boot starts in a consistent state |
| WakeRuns.BootStates | dt2w/dt2w_uewake.rc:15-31 | boot finds the panel in any state and the setting at either value |
| WakeRuns.OutsideSteps | dt2w/dt2w_uewake.c:22-29 | the panel can be suspended whenever it is awake and resumed whenever it is not, with exactly these effects |
| WakeRuns.MessageSteps | dt2w/dt2w_uewake.c:162-196 | messages can be sent and lost at any time |
| WakeRuns.SettingSteps | dt2w/dt2w_uewake_arm.rc:16-21 | the setting can be switched at any time |
| WakeRuns.DaemonSteps | dt2w/dt2w_uewake.c:150-198 | the daemon can time out whenever it polls and stop whenever it runs |
| WakeRuns.ReadingSteps | dt2w/dt2w_uewake.c:176-196 | it takes one message at a time, cut off at the buffer, and asks for an arm exactly when the message is a double tap or a screen-on |
| WakeRuns.PulseStepsAre | dt2w/dt2w_uewake.c:60-68 | a request sets the property low and then high, either of which may fail; init sees every change of the value |
| WakeRuns.EventSteps | dt2w/dt2w_uewake_arm.rc:16-21 | init takes one event at a time; only a property at 1 has the gesture armed, only a setting at 0 has it disarmed and the service stopped, in either order |
| WakeRuns.CommandSteps | dt2w/dt2w_uewake.rc:24-31 | starting a running service does nothing, and the gesture is not written while suspended |
| WakeProtocol.StepKeepsConsistent | dt2w/dt2w_uewake.rc:24-31 | after all queued work the service runs exactly when the setting is on: kept by every step, faults included |
| WakeProtocol.OwedUntilWritten | dt2w/dt2w_uewake.c:60-68 | an arm that is under way stays so until init writes it |
| WakeProtocol.StepKeepsPromise | dt2w/dt2w_uewake.c:22-29 | while enabled, an awake unarmed panel has an arm on its way: kept by every faultless step |
| WakeRuns.HarmlessRunKeepsPromise | dt2w/dt2w_uewake.c:150-198 | the promise holds over whole runs in any interleaving, restarts, switching and early notices included, as long as every resume without notice finds an arm under way |
| WakeRuns.EarlyNoticeInTime | dt2w/dt2w_uewake.c:142-148 | which it does when the notice was sent before and init has not written the arm yet |
| WakeRuns.FaultlessRunKeepsPromise | dt2w/dt2w_uewake.c:150-198 | in particular over whole faultless runs |
| WakeRuns.DrainedAwakeIsArmed | dt2w/dt2w_uewake.c:22-29 | once the queues drain while awake the panel is armed, and the next suspend starts armed |
| WakeRuns.SuspendResumeCycle | dt2w/dt2w_uewake.c:22-29 | from every settled, awake, armed panel there is a faultless run through a suspend and a resume with any screen notice back to such a panel |
| WakeRuns.RestartCycle | dt2w/dt2w_uewake.rc:15-31 | there is one through a stop of the daemon |
| WakeRuns.SwitchCycle | dt2w/dt2w_uewake_arm.rc:16-21 | and one through switching the setting off, which disarms and stops all, and on again |
| WakeRuns.RepairedIsArmed | dt2w/dt2w_uewake.c:22-29 | whatever was lost before, a timeout or a late notice restores the promise, and once everything has drained an awake panel is armed |
| WakeRuns.SettledIsReachable | dt2w/dt2w_uewake.rc:15-31 | from every boot with the setting on a settled state with the property at 1 is reached without a fault |
| WakeRuns.SettledAsleepIsReachable | dt2w/dt2w_uewake.rc:15-31 | and, awake at boot, one asleep and armed |
| WakeRuns.EarlyNoticeBreaksPromise | dt2w/dt2w_uewake.c:142-148 | from every such state, asleep, a notice whose arm is written before the resume leaves the panel awake and unarmed with nothing under way |
| WakeRuns.InternalStretchIsBounded | dt2w/dt2w_uewake.c:150-198 | daemon and init work off what is queued in a bounded number of steps |
| WakeRuns.InternalStepPossible | dt2w/dt2w_uewake.c:150-198 | and get stuck only when everything is drained |
| WakeRuns.DrainedDisabledIsOff | dt2w/dt2w_uewake_arm.rc:16-21 | with the setting off and everything drained the service is stopped and nothing queued can start it or arm |
| WakeRuns.StepKeepsOff | dt2w/dt2w_uewake_arm.rc:16-21 | once off, nothing but re-enabling starts the service or arms the gesture |
| WakeRuns.DisabledStaysUnarmedFromNextResume | dt2w/dt2w_uewake_arm.rc:16-21 | once off, the gesture is unarmed from the next resume, with or without its notice, until re-enabled |
| WakeRuns.LeftArmedIff | dt2w/dt2w_uewake_arm.rc:16-21 | once the stop and the write of 0 are done, an awake panel ends up armed if and only if it was armed again or an arm was still queued then |
| WakeRuns.DisableMayLeaveArmedUntilResume | dt2w/dt2w_uewake_arm.rc:16-21 | which happens, from every settled awake state, when an arm pulse straddles the switch |
| HexPayload.ParseHex | tools/goodix_calib/goodix_calib.cpp:60-88 | the two grammars and the token loop compute the specified bytes |
| HexPayload.EveryByteIsPrinted | tools/goodix_calib/goodix_calib.cpp:67 | every byte has a printed form, in small and in capital letters |
| HexPayload.PackedComesBack | tools/goodix_calib/goodix_calib.cpp:64-70 | bytes printed with the digits of a literal, in small or capital letters, are parsed back from the packed form |
| HexPayload.DelimitedComesBack | tools/goodix_calib/goodix_calib.cpp:71-88 | and, two or more, with or without 0x, from behind any of the four delimiters |
| HexPayload.OddPairs | tools/goodix_calib/goodix_calib.cpp:66-69 | a packed pair may hold a sign, a blank or no digit at all, with these values |
| HexPayload.RangeEnds | tools/goodix_calib/goodix_calib.cpp:72-77 | a numeral counts modulo 256 below 2 to the 63rd, and as 255 from there on |
| HexPayload.StrtolReads | tools/goodix_calib/goodix_calib.cpp:67 | an optional sign, an optional marker in either case and digits are read as C reads them, clamped to 64 bits |
| HexPayload.PackedIff | tools/goodix_calib/goodix_calib.cpp:63-64 | the text is read in pairs if and only if its length is even and none of the four delimiters occurs |
| HexPayload.WhereTokensEnd | tools/goodix_calib/goodix_calib.cpp:78-86 | else it is cut at every character that is no hex digit, except an x behind a lone 0 |
| HexPayload.LastToken | tools/goodix_calib/goodix_calib.cpp:86 | and at its end |
| HexPayload.PackedRoundTrip | tools/goodix_calib/goodix_calib.cpp:64-70 | parsing the packed two-digit form of any bytes returns them |
| HexPayload.DelimitedRoundTrip | tools/goodix_calib/goodix_calib.cpp:71-88 | parsing bytes spelled with one or two digits, with or without 0x, between any gaps returns them unless the text is taken for packed |
| HexPayload.TwoOrMoreBytesRoundTrip | tools/goodix_calib/goodix_calib.cpp:60-88 | two or more bytes joined by non-empty delimiter runs always come back |
| HexPayload.SingleByteRoundTripsUnlessMarked | tools/goodix_calib/goodix_calib.cpp:63-70 | a lone byte comes back if and only if it is not written 0xNN |
| HexPayload.TokenByte | tools/goodix_calib/goodix_calib.cpp:72-77 | a token's byte is its value modulo 256, or 255 when strtol (section 7.22.1.4 of ISO C11) clamps it |
| HexPayload.OutputIsSmall | tools/goodix_calib/goodix_calib.cpp:60-88 | on any input at most (length + 1) / 2 bytes come out |
| CwbAlignment.AlignmentIsExact | patches/display-source-build/formats.cpp:271-304 | with a non-zero factor a pixel count fills whole 256-byte units if and only if it is a multiple of the factor |
| CwbAlignment.WholeUnitsAreMultiples | patches/display-source-build/formats.cpp:276-284 | whole units force multiples, also at 1.5 and 3 bytes a pixel, by inverting 3 modulo powers of two |
| CwbAlignment.FactorZero | patches/display-source-build/formats.cpp:286-303 | the factor is 0 exactly for unlisted formats and 8-bit alpha, whose exact alignment would be 256 |
| CwbAlignment.BytesAreStoredBits | patches/display-source-build/formats.cpp:205-269 | the bytes a pixel are the bits its components are stored in, chroma subsampling included |

## Left out

- Directory walks, `grep`, `readelf` and file access: walks are lists of paths, texts are character sequences.
- `find_interface_bp` and `build_name_index`: candidate paths on disk and subprocesses; the block they locate is a parameter.
- The main loop of `verify_cc_libs.py` and its prefix filter: a table around `ExtractCcBlock`.
- The unresolved-edge loop and the baseline difference of `closure.py`: diagnostics from `readelf` output, filters and counters only.
- The report texts, the truncated raw snippet `parse_versions` returns, and progress output.
- Characters beyond ASCII count as neither digits nor word characters; the scripts' regular expressions would accept them.
- AidlLookup.PrintedInterface: files are printed in one layout, name first, one field a line; other layouts are covered only by the scanner lemmas on arbitrary text.
- AidlLookup.FactsReadBack: the strings of the declarations read hold no quotes, brackets or braces, and none reads `key: true` or `key: false` itself, which the script would take for a flag.
- AidlFreezing.FreezingTheFileKeepsDecisions: the frozen flag and the version lists stand at top level of the interface, not inside a group.
- AidlFreezing.FreezingKeepsOtherDecisions: a later interface whose name starts with a comma is not covered.
- SoongMentions.ClearIffAttracts: names that start with a comma or a closing bracket, which may be found between two strings.
- BlobList.RegenerationSettles: paths with a semicolon, a bar, a line end or a final blank, and marks with a line end, are left out; the format of the list cannot carry them.
- BypassMakefile.MakefileReadsBack: the reader takes a line for one entry, so make's splitting at blanks inside a file name is not modelled.
- WakeProtocol.StepKeepsPromise: a resume and its notice are one step; a notice that comes before its resume is a fault of its own.
- `uinput` and netlink set-up, logging and capabilities of the daemon; a failing start is an exit and a restart by init.
- HexPayload.ParseHex: a null argument is the empty text.
- Single precision in `GetBufferFormatBpp`: all its values are exact, so reals are used.
- The other tables and copies in `formats.cpp`, the Binder tools, `extract-files.py`, makefiles, overlays, policies and flashing scripts.
