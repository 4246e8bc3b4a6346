/** What the script answers for libraries written out as text (verify_cc_libs.py). */
module CcText {
  import opened Text
  import opened SoongFiles
  import opened SoongFields
  import opened SoongPrinter
  import opened SoongDecls
  import opened CcScanner
  import opened CcFiles
  import opened AidlLookup
  import opened AidlText
  import opened CcLibs

  lemma KindsArePlain()
    ensures PlainKind("cc_library") && PlainKind("cc_library_shared") && PlainKind("cc_defaults")
  {
  }

  lemma KindsAreTold()
    ensures Contains("cc_library", LIBRARY) && Contains("cc_library_shared", LIBRARY)
    ensures Contains("cc_defaults", CC_DEFAULTS)
    ensures !Contains("cc_library", CC_DEFAULTS) && !Contains("cc_library_shared", CC_DEFAULTS)
  {
    LibrariesAreLibraries();
    hide Contains;
    assert "cc_defaults"[0..|CC_DEFAULTS|] == CC_DEFAULTS;
    OccurrenceIsContained("cc_defaults", CC_DEFAULTS, 0);
    LibrariesAreNoDefaults();
  }

  lemma LibrariesAreLibraries()
    ensures Contains("cc_library", LIBRARY) && Contains("cc_library_shared", LIBRARY)
  {
    hide Contains;
    assert "cc_library"[0..|LIBRARY|] == LIBRARY;
    assert "cc_library_shared"[0..|LIBRARY|] == LIBRARY;
    OccurrenceIsContained("cc_library", LIBRARY, 0);
    OccurrenceIsContained("cc_library_shared", LIBRARY, 0);
  }

  lemma LibrariesAreNoDefaults()
    ensures !Contains("cc_library", CC_DEFAULTS) && !Contains("cc_library_shared", CC_DEFAULTS)
  {
    assert CC_DEFAULTS[5] == 'f';
    hide Contains, CC_DEFAULTS;
    LetterOccurs("cc_library", CC_DEFAULTS, 5);
    LetterOccurs("cc_library_shared", CC_DEFAULTS, 5);
  }

  lemma LetterOccurs(s: string, pat: string, k: nat)
    requires k < |pat|
    ensures Contains(s, pat) ==> pat[k] in s
  {
    if Contains(s, pat) {
      assert s[Find(s, pat, 0)..][k] == pat[k];
    }
  }

  function LibraryFields(dn: string, available: Option<bool>): seq<Field> {
    [Strs("defaults", [dn])] + FlagPart("vendor_available", available)
  }

  lemma LibraryParts(kind: string, n: string, dn: string, available: Option<bool>)
    requires PlainString(dn)
    ensures var d := Decl(kind, n, LibraryFields(dn, available));
            && Leaves(d.others)
            && PrintBlock(ToBlock(d)) ==
               DeclText(kind, n, "\n    defaults: [" + ("\"" + dn + "\"") + "],"
                        + FlagLine("vendor_available", available))
  {
    var defs := Strs("defaults", [dn]);
    KeysAreWords();
    assert PlainField(defs) && IsLeaf(defs);
    PrintOne(defs);
    assert PrintValue(defs, INDENT) == "[" + ("\"" + dn + "\"") + "]" by {
      assert PrintStrings([dn]) == "\"" + dn + "\"";
    }
    FlagIsLeaf(available);
    assert LibraryFields(dn, available) == [defs] + FlagPart("vendor_available", available);
    hide *;
    OneLeaf(defs);
    LeavesConcat([defs], FlagPart("vendor_available", available));
    FlagPrinted("vendor_available", available);
    PrintConcat([defs], FlagPart("vendor_available", available), INDENT);
    ListLine("defaults", "\"" + dn + "\"");
    DeclPrinted(Decl(kind, n, LibraryFields(dn, available)),
                "\n    defaults: [" + ("\"" + dn + "\"") + "]," + FlagLine("vendor_available", available));
  }

  lemma FlagIsLeaf(available: Option<bool>)
    ensures Leaves(FlagPart("vendor_available", available))
  {
    KeysAreWords();
    hide IsKey;
  }

  lemma LibraryStates(n: string, dn: string, available: Option<bool>)
    ensures var flat := [Str("name", n)] + LibraryFields(dn, available);
            && FlagOf(flat, "vendor_available") == available
            && First(flat, "defaults", Bracket) == Some(Strs("defaults", [dn]))
  {
    var defs := Strs("defaults", [dn]);
    BehindName(n, LibraryFields(dn, available), "vendor_available", TrueOrFalse);
    BehindName(n, LibraryFields(dn, available), "defaults", Bracket);
    BehindList(defs, FlagPart("vendor_available", available), "vendor_available", TrueOrFalse);
    BehindList(defs, FlagPart("vendor_available", available), "defaults", Bracket);
    FirstOfFlagPart("vendor_available", available, "vendor_available", TrueOrFalse);
    hide First, FlagPart;
  }

  lemma DefaultsState(dn: string, available: Option<bool>)
    ensures FlagOf([Str("name", dn)] + FlagPart("vendor_available", available), "vendor_available") == available
  {
    BehindName(dn, FlagPart("vendor_available", available), "vendor_available", TrueOrFalse);
    FirstOfFlagPart("vendor_available", available, "vendor_available", TrueOrFalse);
    hide First, FlagPart;
  }

  /** A library and the defaults it lists: the answer is true exactly when one of the two states true;
      a literal false of the library itself does not count against its defaults. */
  lemma LibraryDecided(kind: string, n: string, dn: string, available: Option<bool>, granted: Option<bool>)
    requires kind == "cc_library" || kind == "cc_library_shared"
    requires PlainString(n) && PlainString(dn) && dn != ""
    ensures var text := DeclText(kind, n, "\n    defaults: [" + ("\"" + dn + "\"") + "],"
                                 + FlagLine("vendor_available", available))
                        + DeclText("cc_defaults", dn, FlagLine("vendor_available", granted));
            LibraryAnswer(text, n) == Some(available == Some(true) || granted == Some(true))
  {
    hide *;
    var d := Decl(kind, n, LibraryFields(dn, available));
    var e := Decl("cc_defaults", dn, FlagPart("vendor_available", granted));
    KindsArePlain();
    KindsAreTold();
    LibraryParts(kind, n, dn, available);
    FlagIsLeaf(granted);
    FlagPrinted("vendor_available", granted);
    DeclPrinted(e, FlagLine("vendor_available", granted));
    TwoBlocks(ToBlock(d), ToBlock(e));
    LeafDecl(kind, n, d.others);
    LeafDecl("cc_defaults", dn, e.others);
    LibraryStates(n, dn, available);
    DefaultsState(dn, granted);
    TwoRead(d, e, dn);
    LibraryReads(d, e);
    PrintedLibrary([ToBlock(d), ToBlock(e)], Place(0, d), [Some(Place(1, e))]);
    UsableIs(d, e, available, granted);
  }

  lemma TwoRead(d: Decl, e: Decl, dn: string)
    requires PlainDecl(d) && PlainDecl(e) && Leaves(d.others) && PlainString(dn) && dn != "" && e.name == dn
    requires !Contains(d.kind, CC_DEFAULTS) && Contains(e.kind, CC_DEFAULTS)
    ensures ResolvesTo([ToBlock(d), ToBlock(e)], dn, Some(Place(1, e)), CC_DEFAULTS, ByNameKey)
  {
    LeavesAreApart(d.others, CC_DEFAULTS);
    CcDefaultsIsWord();
    PlainDeclIsWellFormed(d);
    assert Apart(d, CC_DEFAULTS);
    hide PlainDecl, ToBlock, WellFormed, Unambiguous, NamesNothing, PlainString, IsKey, Leaves, Apart;
    ApartIsUnambiguous(d, dn, CC_DEFAULTS);
    UnambiguousNamesNothing(ToBlock(d), dn, CC_DEFAULTS);
  }

  lemma LibraryReads(d: Decl, e: Decl)
    requires PlainDecl(d) && Contains(d.kind, LIBRARY)
    requires First(Flatten(FieldsOf(d)), "defaults", Bracket) == Some(Strs("defaults", [e.name]))
    requires ResolvesTo([ToBlock(d), ToBlock(e)], e.name, Some(Place(1, e)), CC_DEFAULTS, ByNameKey)
    ensures ReadsLibrary([ToBlock(d), ToBlock(e)], Place(0, d), [Some(Place(1, e))])
  {
    hide PlainDecl, Contains, First, Flatten, FieldsOf, ToBlock, Clear, ResolvesTo;
  }

  lemma UsableIs(d: Decl, e: Decl, available: Option<bool>, granted: Option<bool>)
    requires FlagOf(Flatten(FieldsOf(d)), "vendor_available") == available
    requires FlagOf(Flatten(FieldsOf(e)), "vendor_available") == granted
    ensures Usable(d, [Some(Place(1, e))]) <==> available == Some(true) || granted == Some(true)
  {
    hide FlagOf, Flatten, FieldsOf;
    var at := [Some(Place(1, e))];
    assert at[0] == Some(Place(1, e));
  }

  /** A declaration of a kind that does not contain cc_library is no library of that name. */
  lemma OtherKindIsNone(kind: string, n: string, lines: string, fs: seq<Field>)
    requires PlainKind(kind) && !Contains(kind, "cc_library") && PlainString(n)
    requires Leaves(fs) && PrintFields(fs, INDENT) == lines
    ensures LibraryAnswer(DeclText(kind, n, lines), n) == None
  {
    var d := Decl(kind, n, fs);
    LibraryIsWord();
    hide *;
    LeafDecl(kind, n, fs);
    DeclPrinted(d, lines);
    OneBlock(ToBlock(d));
    OtherIsNamedNowhere(d, n, LIBRARY);
    LibraryNotFound([ToBlock(d)], n, LIBRARIES, LIBRARY) by { KeywordsAreOneFilter(); }
    NoAnswer(PrintFile([ToBlock(d)]), n);
  }

  /** Nor does one of a kind that does not contain cc_defaults grant anything as defaults. */
  lemma OtherDefaultsGrantNothing(kind: string, dn: string, lines: string, fs: seq<Field>)
    requires PlainKind(kind) && !Contains(kind, "cc_defaults") && PlainString(dn)
    requires Leaves(fs) && PrintFields(fs, INDENT) == lines
    ensures !Grants(DeclText(kind, dn, lines), dn)
  {
    var d := Decl(kind, dn, fs);
    LibraryIsWord();
    hide *;
    LeafDecl(kind, dn, fs);
    DeclPrinted(d, lines);
    OneBlock(ToBlock(d));
    OtherIsNamedNowhere(d, dn, CC_DEFAULTS);
    LibraryNotFound([ToBlock(d)], dn, [CC_DEFAULTS], CC_DEFAULTS) by { DefaultsAreOneFilter(); }
    NothingGranted(PrintFile([ToBlock(d)]), dn);
  }

  lemma NothingGranted(text: string, dn: string)
    requires MatchedBlock(text, dn, [CC_DEFAULTS]) == None
    ensures !Grants(text, dn)
  {
  }

  lemma DefaultsAreOneFilter()
    ensures OneFilter([CC_DEFAULTS], CC_DEFAULTS)
  {
  }

  lemma OtherIsNamedNowhere(d: Decl, n: string, filter: string)
    requires PlainDecl(d) && !Contains(d.kind, filter) && Leaves(d.others) && IsKey(filter)
    ensures ClearBefore([ToBlock(d)], 1, n, filter, ByNameKey)
  {
    LeavesAreApart(d.others, filter);
    PlainDeclIsWellFormed(d);
    assert Apart(d, filter);
    hide PlainDecl, ToBlock, WellFormed, Unambiguous, NamesNothing, IsKey, Leaves, Apart;
    ApartIsUnambiguous(d, n, filter);
    UnambiguousNamesNothing(ToBlock(d), n, filter);
  }

  lemma LibraryIsWord()
    ensures IsKey(LIBRARY) && LIBRARY == "cc_library" && IsKey(CC_DEFAULTS) && CC_DEFAULTS == "cc_defaults"
  {
  }

  lemma NoAnswer(text: string, n: string)
    requires MatchedBlock(text, n, LIBRARIES) == None
    ensures LibraryAnswer(text, n) == None
  {
  }
}
