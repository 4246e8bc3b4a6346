/** Library blocks and the defaults they list (verify_cc_libs.py, extract_cc_block). */
module CcLibs {
  import opened Text
  import opened SoongFiles
  import opened SoongFields
  import opened SoongPrinter
  import opened AidlVersions
  import opened CcScanner
  import opened CcFiles
  import opened SoongDecls
  import opened AidlLookup

  const LIBRARIES := ["cc_library", "cc_library_shared", "cc_library_libpower"]
  const LIBRARY := "cc_library"
  const CC_DEFAULTS := "cc_defaults"

  // ---- extract_cc_block ----

  predicate VendorAvailable(block: string) {
    FlagIn(block, "vendor_available") == Some(true)
  }

  predicate Grants(text: string, defaults: string) {
    match MatchedBlock(text, defaults, [CC_DEFAULTS])
    case Some(b) => VendorAvailable(b)
    case None => false
  }

  /** The block states true itself, or a listed defaults block does. */
  predicate IsUsable(text: string, block: string) {
    var names := DefaultsNames(block);
    VendorAvailable(block) || exists i :: 0 <= i < |names| && Grants(text, names[i])
  }

  /** What the script answers for a library, if it finds its block. */
  function LibraryAnswer(text: string, name: string): Option<bool> {
    match MatchedBlock(text, name, LIBRARIES)
    case None => None
    case Some(b) => Some(IsUsable(text, b))
  }

  /** A library block counts as usable by vendor processes exactly when the first literal of its
      own block, or of any listed defaults block, is true: a literal false of its own is
      overruled by a listed default. */
  method ExtractCcBlock(text: string, name: string) returns (block: Option<string>, usable: Option<bool>)
    ensures block == MatchedBlock(text, name, LIBRARIES)
    ensures usable == LibraryAnswer(text, name)
    ensures block.Some? ==>
              (usable == Some(true) <==>
               VendorAvailable(block.value)
               || exists i :: 0 <= i < |DefaultsNames(block.value)| && Grants(text, DefaultsNames(block.value)[i]))
  {
    hide FlagIn, DefaultsNames, FirstDeclared;
    block := MatchBlock(text, name, LIBRARIES);
    if block.None? {
      return None, None;
    }
    var va := FlagIn(block.value, "vendor_available");
    if va == Some(true) {
      return block, Some(true);
    }
    var names := DefaultsNames(block.value);
    for k := 0 to |names|
      invariant forall i :: 0 <= i < k ==> !Grants(text, names[i])
    {
      var d := MatchBlock(text, names[k], [CC_DEFAULTS]);
      if d.Some? && FlagIn(d.value, "vendor_available") == Some(true) {
        assert Grants(text, names[k]);
        return block, Some(true);
      }
    }
    return block, Some(false);
  }

  lemma KeywordsAreOneFilter()
    ensures OneFilter(LIBRARIES, LIBRARY) && OneFilter([CC_DEFAULTS], CC_DEFAULTS)
  {
    assert LIBRARIES[0] == LIBRARY && [CC_DEFAULTS][0] == CC_DEFAULTS;
  }

  // ---- Printed files ----

  lemma LibraryFound(bs: seq<Block>, p: Place, name: string, keywords: seq<string>, filter: string)
    requires OneFilter(keywords, filter) && Names(bs, p, name, filter, ByNameKey)
    ensures MatchedBlock(PrintFile(bs), name, keywords) == Some(BlockText(ToBlock(p.decl)))
  {
    hide *;
    NamesMean(bs, p, name, filter, ByNameKey);
    ClearMeans(bs, p.index, name, filter);
    DeclBraces(p.decl);
    PrintedMatch(bs, p.index, name, keywords, filter);
  }

  lemma LibraryNotFound(bs: seq<Block>, name: string, keywords: seq<string>, filter: string)
    requires OneFilter(keywords, filter) && PlainString(name) && ClearBefore(bs, |bs|, name, filter, ByNameKey)
    ensures MatchedBlock(PrintFile(bs), name, keywords) == None
  {
    ClearMeans(bs, |bs|, name, filter);
    hide WellFormed, MatchedBlock, Unambiguous, NamesNothing, PrintFile, LooksLikeFlag, OneFilter;
    MatchFailsIff(bs, name, keywords, filter);
  }

  predicate StatesAvailable(d: Decl) {
    FlagOf(Flatten(FieldsOf(d)), "vendor_available") == Some(true)
  }

  lemma AvailableReadsBack(d: Decl)
    requires PlainDecl(d)
    ensures VendorAvailable(BlockText(ToBlock(d))) <==> StatesAvailable(d)
  {
    hide FlagIn, FlagOf, Flatten, FieldsOf, BlockText, ToBlock, PlainDecl;
    KeysAreWords();
    BlockTextsUnfold([d]);
    assert AllFields([d]) == Flatten(FieldsOf(d)) && BlockTexts([d]) == BlockText(ToBlock(d));
    FlagReadsBack([d], "vendor_available");
  }

  predicate GrantsAt(at: Option<Place>) {
    at.Some? && StatesAvailable(at.value.decl)
  }

  /** What the declarations themselves say about a library and the defaults it lists. */
  predicate Usable(d: Decl, at: seq<Option<Place>>) {
    StatesAvailable(d) || exists k :: 0 <= k < |at| && GrantsAt(at[k])
  }

  lemma GrantReadsBack(bs: seq<Block>, name: string, at: Option<Place>)
    requires ResolvesTo(bs, name, at, CC_DEFAULTS, ByNameKey)
    ensures Grants(PrintFile(bs), name) <==> GrantsAt(at)
  {
    hide PlainString, ClearBefore, MatchedBlock, PrintFile, BlockText, ToBlock, StatesAvailable, VendorAvailable,
         PlainDecl, Contains, OneFilter;
    KeywordsAreOneFilter();
    match at
    case Some(p) =>
      LibraryFound(bs, p, name, [CC_DEFAULTS], CC_DEFAULTS);
      AvailableReadsBack(p.decl);
    case None =>
      LibraryNotFound(bs, name, [CC_DEFAULTS], CC_DEFAULTS);
  }

  ghost predicate ReadsLibrary(bs: seq<Block>, p: Place, at: seq<Option<Place>>) {
    ReadsDecl(bs, p, at, LIBRARY, CC_DEFAULTS, ByNameKey)
  }

  /** The answer for a library of a printed file is what its declaration and the listed
      defaults state. */
  lemma PrintedLibrary(bs: seq<Block>, p: Place, at: seq<Option<Place>>)
    requires ReadsLibrary(bs, p, at)
    ensures LibraryAnswer(PrintFile(bs), p.decl.name) == Some(Usable(p.decl, at))
  {
    hide Names, ReadsDecl, ResolvesTo, PlainDecl, Flatten, FieldsOf, BlockText, ToBlock, DefaultsOf,
         DefaultsNames, MatchedBlock, PrintFile, StatesAvailable, VendorAvailable, Grants, OneFilter, GrantsAt;
    KeywordsAreOneFilter();
    ReadsDeclMeans(bs, p, at, LIBRARY, CC_DEFAULTS, ByNameKey);
    LibraryFound(bs, p, p.decl.name, LIBRARIES, LIBRARY);
    AvailableReadsBack(p.decl);
    var names := DefaultsOf(Flatten(FieldsOf(p.decl)));
    forall k | 0 <= k < |names|
      ensures Grants(PrintFile(bs), names[k]) <==> GrantsAt(at[k])
    {
      GrantReadsBack(bs, names[k], at[k]);
    }
  }

  // ---- Adding a default ----

  /** The declaration with one more name in its k-th field, the list of its defaults. */
  function WithDefault(d: Decl, k: nat, name: string): Decl
    requires k < |d.others| && d.others[k].Strs?
  {
    d.(others := d.others[k := Strs(d.others[k].name, d.others[k].values + [name])])
  }

  /** The k-th field is the one the defaults are read from. */
  predicate ListsDefaults(d: Decl, k: nat) {
    && k < |d.others| && d.others[k].Strs? && d.others[k].name == "defaults"
    && First(Flatten(d.others[..k]), "defaults", Bracket) == None
  }

  lemma FirstAround(a: seq<Field>, f: Field, b: seq<Field>, key: string, kind: ValueKind)
    requires IsLeaf(f)
    ensures First(Flatten(a + [f] + b), key, kind) ==
            if First(Flatten(a), key, kind).Some? then First(Flatten(a), key, kind)
            else if f.name == key && HasKind(f, kind) then Some(f)
            else First(Flatten(b), key, kind)
  {
    hide Flatten;
    FlattenConcat(a + [f], b);
    FlattenConcat(a, [f]);
    FlattenLeaf(f);
    FirstOfConcat(Flatten(a) + [f], Flatten(b), key, kind);
    FirstOfConcat(Flatten(a), [f], key, kind);
  }

  lemma OwnFirst(d: Decl, key: string, kind: ValueKind)
    requires key != "name"
    ensures First(Flatten(FieldsOf(d)), key, kind) == First(Flatten(d.others), key, kind)
  {
    hide Flatten, FieldsOf;
    OwnFields(d);
    OwnThenRest(d, [], key, kind);
    assert AllFields([]) == [];
  }

  /** Only the list of defaults reads differently. */
  lemma WithDefaultFirst(d: Decl, k: nat, name: string, key: string, kind: ValueKind)
    requires ListsDefaults(d, k) && key != "name"
    ensures First(Flatten(FieldsOf(WithDefault(d, k, name))), key, kind) ==
            if key == "defaults" && kind == Bracket then Some(Strs("defaults", d.others[k].values + [name]))
            else First(Flatten(FieldsOf(d)), key, kind)
    ensures First(Flatten(FieldsOf(d)), "defaults", Bracket) == Some(d.others[k])
  {
    hide First, Flatten, FieldsOf;
    var e, f := WithDefault(d, k, name), d.others[k];
    var g := e.others[k];
    OwnFirst(d, key, kind);
    OwnFirst(d, "defaults", Bracket);
    OwnFirst(e, key, kind);
    assert d.others == d.others[..k] + [f] + d.others[k + 1..];
    assert e.others == d.others[..k] + [g] + d.others[k + 1..];
    FirstAround(d.others[..k], f, d.others[k + 1..], key, kind);
    FirstAround(d.others[..k], f, d.others[k + 1..], "defaults", Bracket);
    FirstAround(d.others[..k], g, d.others[k + 1..], key, kind);
  }

  lemma {:induction false} ReplacedFieldsArePlain(fs: seq<Field>, k: nat, f: Field, filter: string)
    requires k < |fs| && PlainFields(fs) && FieldsApart(fs, filter) && PlainField(f) && FieldApart(f, filter)
    ensures PlainFields(fs[k := f]) && FieldsApart(fs[k := f], filter) && PlainField(fs[k])
  {
    hide PlainField, FieldApart;
    var gs := fs[k := f];
    if k == 0 {
      assert gs[1..] == fs[1..];
    } else {
      assert gs[1..] == fs[1..][k - 1 := f] && gs[0] == fs[0];
      ReplacedFieldsArePlain(fs[1..], k - 1, f, filter);
    }
  }

  lemma WithDefaultIsPlain(d: Decl, k: nat, name: string, filter: string)
    requires PlainDecl(d) && Apart(d, filter) && ListsDefaults(d, k) && PlainString(name)
    ensures PlainDecl(WithDefault(d, k, name)) && Apart(WithDefault(d, k, name), filter)
  {
    var f := Strs("defaults", d.others[k].values + [name]);
    hide PlainString, PlainKind, Contains, First, Flatten;
    PlainAt(d.others, k);
    assert PlainField(f);
    ReplacedFieldsArePlain(d.others, k, f, filter);
  }

  lemma {:induction false} PlainAt(fs: seq<Field>, k: nat)
    requires k < |fs| && PlainFields(fs)
    ensures PlainField(fs[k])
  {
    if k > 0 {
      PlainAt(fs[1..], k - 1);
    }
  }

  /** The file with the longer list is read like the old one, with one more default. */
  lemma LongerListReads(bs: seq<Block>, p: Place, at: seq<Option<Place>>, k: nat, name: string, u: Option<Place>)
    requires ReadsLibrary(bs, p, at) && Apart(p.decl, CC_DEFAULTS) && ListsDefaults(p.decl, k)
    requires ResolvesTo(bs, name, u, CC_DEFAULTS, ByNameKey)
    ensures var e := WithDefault(p.decl, k, name);
            ReadsLibrary(bs[p.index := ToBlock(e)], Place(p.index, e), at + [u])
  {
    var d, e := p.decl, WithDefault(p.decl, k, name);
    var bs' := bs[p.index := ToBlock(e)];
    var names := DefaultsOf(Flatten(FieldsOf(d)));
    assert PlainString(name);
    hide Names, ResolvesTo, PlainDecl, First, Flatten, FieldsOf, ToBlock, Contains, FieldsApart, PlainString;
    CcDefaultsIsWord();
    ReadsDeclMeans(bs, p, at, LIBRARY, CC_DEFAULTS, ByNameKey);
    WithDefaultIsPlain(d, k, name, CC_DEFAULTS);
    WithDefaultFirst(d, k, name, "defaults", Bracket);
    NamesMean(bs, p, d.name, LIBRARY, ByNameKey);
    BodyIs(d);
    RewriteKeepsTarget(bs, p, e, LIBRARY, ByNameKey);
    RewriteKeepsAllNames(bs, p.index, e, names, at, CC_DEFAULTS, ByNameKey);
    RewriteKeepsNames(bs, p.index, e, name, u, CC_DEFAULTS, ByNameKey);
    assert DefaultsOf(Flatten(FieldsOf(e))) == names + [name];
  }

  lemma CcDefaultsIsWord()
    ensures IsKey(CC_DEFAULTS)
  {
  }

  /** Listing one more default in the file never turns the answer for the library from true to
      false: it becomes true exactly when it was, or when the new default states true. */
  lemma AddingDefaultKeepsTrue(bs: seq<Block>, p: Place, at: seq<Option<Place>>, k: nat, name: string, u: Option<Place>)
    requires ReadsLibrary(bs, p, at) && Apart(p.decl, CC_DEFAULTS)
    requires k < |p.decl.others| && p.decl.others[k].Strs? && p.decl.others[k].name == "defaults"
    requires First(Flatten(p.decl.others[..k]), "defaults", Bracket) == None
    requires ResolvesTo(bs, name, u, CC_DEFAULTS, ByNameKey)
    ensures var before := LibraryAnswer(PrintFile(bs), p.decl.name);
            var after := LibraryAnswer(PrintFile(bs[p.index := ToBlock(WithDefault(p.decl, k, name))]), p.decl.name);
            && before.Some? && after.Some?
            && (before == Some(true) ==> after == Some(true))
            && (after == Some(true) <==> before == Some(true) || GrantsAt(u))
  {
    var d, e := p.decl, WithDefault(p.decl, k, name);
    assert ListsDefaults(d, k);
    WithDefaultFirst(d, k, name, "vendor_available", TrueOrFalse);
    assert StatesAvailable(e) <==> StatesAvailable(d);
    hide ReadsLibrary, Apart, ListsDefaults, ResolvesTo, StatesAvailable, ToBlock, PrintFile, LibraryAnswer, GrantsAt;
    PrintedLibrary(bs, p, at);
    LongerListReads(bs, p, at, k, name, u);
    PrintedLibrary(bs[p.index := ToBlock(e)], Place(p.index, e), at + [u]);
    UsableWithOneMore(d, e, at, u);
  }

  lemma UsableWithOneMore(d: Decl, e: Decl, at: seq<Option<Place>>, u: Option<Place>)
    requires StatesAvailable(e) <==> StatesAvailable(d)
    ensures Usable(e, at + [u]) <==> Usable(d, at) || GrantsAt(u)
  {
    hide StatesAvailable, GrantsAt;
    var more := at + [u];
    assert more[|at|] == u && forall k :: 0 <= k < |at| ==> more[k] == at[k];
  }
}
