/** What freezing an interface in the source file does to the decisions (verify_aidl_versions.py,
    main): none changes, neither for its own prebuilts nor for those of the other interfaces. */
module AidlFreezing {
  import opened Text
  import opened SoongFiles
  import opened SoongScanner
  import opened SoongFields
  import opened SoongPrinter
  import opened SoongDecls
  import opened SoongMentions
  import opened AidlVersions
  import opened AidlRoundTrip
  import opened AidlLookup
  import opened AidlDecision

  // ---- Freezing in the source text ----

  /** One top-level field as freezing rewrites it: frozen becomes true, a version list gets one
      more version at its end. */
  function FrozenField(f: Field, version: nat, imports: seq<string>): Field {
    match f
    case Flag(name, _) => if name == "frozen" then Flag(name, true) else f
    case Infos(name, infos) =>
      if name == "versions_with_info" then Infos(name, infos + [Info(version, imports)]) else f
    case Strs(name, values) => if name == "versions" then Strs(name, values + [Dec(version)]) else f
    case _ => f
  }

  function FrozenFields(fs: seq<Field>, version: nat, imports: seq<string>): (r: seq<Field>)
    ensures |r| == |fs|
  {
    if fs == [] then [] else [FrozenField(fs[0], version, imports)] + FrozenFields(fs[1..], version, imports)
  }

  predicate SaysFrozen(fs: seq<Field>) {
    exists i :: 0 <= i < |fs| && fs[i].Flag? && fs[i].name == "frozen"
  }

  /** The declaration as freezing rewrites it; a frozen flag is added only where there is none. */
  function FrozenDecl(d: Decl, version: nat, imports: seq<string>): Decl {
    var fs := FrozenFields(d.others, version, imports);
    d.(others := if SaysFrozen(d.others) then fs else [Flag("frozen", true)] + fs)
  }

  predicate IsFreezeKey(key: string) {
    key == "frozen" || key == "versions" || key == "versions_with_info"
  }

  /** The flag and the version lists stand at top level, not inside a group. */
  predicate Shallow(fs: seq<Field>) {
    forall i, j :: 0 <= i < |fs| && fs[i].Group? && 0 <= j < |Flatten(fs[i].fields)| ==>
      !IsFreezeKey(Flatten(fs[i].fields)[j].name)
  }

  /** The versions are read from the declaration's own list. */
  predicate ListsVersions(d: Decl, rest: seq<Decl>) {
    var flat := Flatten(d.others);
    match First(flat, "versions_with_info", Bracket)
    case Some(f) => f.Infos?
    case None =>
      && First(flat, "versions", Bracket).Some? && First(flat, "versions", Bracket).value.Strs?
      && First(AllFields(rest), "versions_with_info", Bracket) == None
  }

  lemma {:induction false} InnerHasOnly(infos: seq<Info>, key: string, kind: ValueKind)
    requires key != "version" && key != "imports"
    ensures First(FlattenInfos(infos), key, kind) == None
  {
    if infos != [] {
      InnerHasOnly(infos[1..], key, kind);
      var two := [Str("version", Dec(infos[0].version)), Strs("imports", infos[0].imports)];
      assert First(two, key, kind) == None by {
        assert First(two[1..], key, kind) == None;
      }
      FirstOfConcat(two, FlattenInfos(infos[1..]), key, kind);
    }
  }

  lemma FirstOfWhole(f: Field, key: string, kind: ValueKind)
    requires key != "version" && key != "imports"
    ensures First(Flatten([f]), key, kind) ==
            if f.name == key && HasKind(f, kind) then Some(f)
            else if f.Group? then First(Flatten(f.fields), key, kind)
            else None
  {
    var inner := FlattenOne(f);
    assert [f][1..] == [] && Flatten([f]) == [f] + inner;
    assert ([f] + inner)[1..] == inner;
    if f.Infos? {
      InnerHasOnly(f.infos, key, kind);
    }
  }

  lemma {:induction false} FirstOfAbsent(flat: seq<Field>, key: string, kind: ValueKind)
    requires forall j :: 0 <= j < |flat| ==> flat[j].name != key
    ensures First(flat, key, kind) == None
  {
    if flat != [] {
      FirstOfAbsent(flat[1..], key, kind);
    }
  }

  function Grown(o: Option<Field>, version: nat, imports: seq<string>): Option<Field> {
    match o
    case Some(f) => Some(FrozenField(f, version, imports))
    case None => None
  }

  lemma OneGrown(f: Field, version: nat, imports: seq<string>, key: string, kind: ValueKind)
    requires key != "version" && key != "imports" && Shallow([f])
    ensures First(Flatten([FrozenField(f, version, imports)]), key, kind) ==
            Grown(First(Flatten([f]), key, kind), version, imports)
  {
    var g := FrozenField(f, version, imports);
    FirstOfWhole(f, key, kind);
    FirstOfWhole(g, key, kind);
    hide Flatten, First;
    if f.Group? {
      var inner := Flatten(f.fields);
      FirstIsMember(inner, key, kind);
      if IsFreezeKey(key) {
        assert [f][0] == f;
        FirstOfAbsent(inner, key, kind);
      }
    }
  }

  /** Reading any field of the rewritten ones gives what was read before, rewritten. */
  lemma {:induction false} FieldsGrown(fs: seq<Field>, version: nat, imports: seq<string>, key: string, kind: ValueKind)
    requires key != "version" && key != "imports" && Shallow(fs)
    ensures First(Flatten(FrozenFields(fs, version, imports)), key, kind) ==
            Grown(First(Flatten(fs), key, kind), version, imports)
    decreases |fs|
  {
    hide First, Grown, FrozenField, IsFreezeKey;
    if fs != [] {
      var gs := FrozenFields(fs, version, imports);
      assert gs[0] == FrozenField(fs[0], version, imports) && gs[1..] == FrozenFields(fs[1..], version, imports);
      CutFirst(fs, key, kind);
      CutFirst(gs, key, kind);
      ShallowParts(fs);
      OneGrown(fs[0], version, imports, key, kind);
      FieldsGrown(fs[1..], version, imports, key, kind);
      GrownIsSome(First(Flatten([fs[0]]), key, kind), version, imports);
    } else {
      NothingGrown(version, imports, key, kind);
    }
  }

  lemma NothingGrown(version: nat, imports: seq<string>, key: string, kind: ValueKind)
    ensures Grown(First([], key, kind), version, imports) == First([], key, kind)
  {
  }

  lemma GrownIsSome(o: Option<Field>, version: nat, imports: seq<string>)
    ensures Grown(o, version, imports).Some? <==> o.Some?
  {
  }

  lemma CutFirst(fs: seq<Field>, key: string, kind: ValueKind)
    requires fs != []
    ensures First(Flatten(fs), key, kind) ==
            if First(Flatten([fs[0]]), key, kind).Some? then First(Flatten([fs[0]]), key, kind)
            else First(Flatten(fs[1..]), key, kind)
  {
    hide Flatten, First;
    assert fs == [fs[0]] + fs[1..];
    FlattenConcat([fs[0]], fs[1..]);
    FirstOfConcat(Flatten([fs[0]]), Flatten(fs[1..]), key, kind);
  }

  lemma ShallowParts(fs: seq<Field>)
    requires fs != [] && Shallow(fs)
    ensures Shallow([fs[0]]) && Shallow(fs[1..])
  {
    hide Flatten, IsFreezeKey;
  }

  // ---- What is read from the rewritten declaration ----

  /** Freezing sets frozen, grows the own version lists, and changes no other key. */
  lemma FrozenFirst(d: Decl, version: nat, imports: seq<string>, rest: seq<Decl>, key: string, kind: ValueKind)
    requires key != "name" && key != "version" && key != "imports" && Shallow(d.others)
    ensures First(AllFields([FrozenDecl(d, version, imports)] + rest), key, kind) ==
            if key == "frozen" && kind == TrueOrFalse then Some(Flag("frozen", true))
            else if First(Flatten(d.others), key, kind).Some?
            then Grown(First(Flatten(d.others), key, kind), version, imports)
            else First(AllFields(rest), key, kind)
  {
    var e := FrozenDecl(d, version, imports);
    hide AllFields, Flatten, Shallow, FrozenFields;
    FieldsGrown(d.others, version, imports, key, kind);
    OwnThenRest(e, rest, key, kind);
    if SaysFrozen(d.others) {
      if key == "frozen" && kind == TrueOrFalse {
        FrozenIsRead(d.others);
        FirstIsMember(Flatten(d.others), key, kind);
      }
    } else {
      var flag := Flag("frozen", true);
      FlattenConcat([flag], FrozenFields(d.others, version, imports));
      FlattenLeaf(flag);
      var fs := Flatten(FrozenFields(d.others, version, imports));
      assert ([flag] + fs)[1..] == fs;
    }
  }

  lemma {:induction false} FrozenIsRead(fs: seq<Field>)
    requires SaysFrozen(fs)
    ensures First(Flatten(fs), "frozen", TrueOrFalse).Some?
  {
    CutFirst(fs, "frozen", TrueOrFalse);
    FirstOfWhole(fs[0], "frozen", TrueOrFalse);
    hide First, Flatten;
    if !(fs[0].Flag? && fs[0].name == "frozen") {
      var i :| 0 <= i < |fs| && fs[i].Flag? && fs[i].name == "frozen";
      assert fs[1..][i - 1] == fs[i];
      FrozenIsRead(fs[1..]);
    }
  }

  lemma {:induction false} VersionsAppend(infos: seq<Info>, info: Info)
    ensures Versions(infos + [info]) == Versions(infos) + [info.version]
  {
    if infos == [] {
      assert [info][1..] == [];
    } else {
      assert (infos + [info])[1..] == infos[1..] + [info];
      VersionsAppend(infos[1..], info);
    }
  }

  lemma {:induction false} NumbersAppend(values: seq<string>, version: nat)
    ensures Numbers(values + [Dec(version)]) == Numbers(values) + [version]
  {
    hide FromDec, Dec, AllDigits;
    var v := Dec(version);
    DecRoundTrip(version);
    if values == [] {
      assert [v][1..] == [];
    } else {
      assert (values + [v])[1..] == values[1..] + [v];
      NumbersAppend(values[1..], version);
    }
  }

  lemma VersionsOfFrozen(d: Decl, version: nat, imports: seq<string>, rest: seq<Decl>)
    requires Shallow(d.others) && ListsVersions(d, rest)
    ensures VersionsOf(AllFields([FrozenDecl(d, version, imports)] + rest)) ==
            VersionsOf(AllFields([d] + rest)) + [version]
  {
    var flat := Flatten(d.others);
    FirstIsMember(flat, "versions_with_info", Bracket);
    FirstIsMember(flat, "versions", Bracket);
    hide AllFields, Flatten, Shallow, First, Versions, Numbers, FrozenDecl;
    OwnThenRest(d, rest, "versions_with_info", Bracket);
    OwnThenRest(d, rest, "versions", Bracket);
    FrozenFirst(d, version, imports, rest, "versions_with_info", Bracket);
    FrozenFirst(d, version, imports, rest, "versions", Bracket);
    match First(flat, "versions_with_info", Bracket)
    case Some(f) => VersionsAppend(f.infos, Info(version, imports));
    case None => NumbersAppend(First(flat, "versions", Bracket).value.values, version);
  }

  lemma SortedSetAppend(s: seq<nat>, n: nat)
    ensures SortedSet(s + [n]) == SortedSet(SortedSet(s) + [n])
  {
    forall x
      ensures x in SortedSet(s + [n]) <==> x in SortedSet(SortedSet(s) + [n])
    {
      assert x in s + [n] <==> x in SortedSet(s) + [n];
    }
    IncreasingIsUnique(SortedSet(s + [n]), SortedSet(SortedSet(s) + [n]));
  }

  /** What freezing changes for a key other than the version lists and frozen: nothing. */
  lemma OtherKeysStay(d: Decl, version: nat, imports: seq<string>, rest: seq<Decl>, key: string, kind: ValueKind)
    requires Shallow(d.others) && !IsFreezeKey(key)
    requires key != "name" && key != "version" && key != "imports"
    ensures First(AllFields([FrozenDecl(d, version, imports)] + rest), key, kind) ==
            First(AllFields([d] + rest), key, kind)
  {
    hide AllFields, Flatten, Shallow, First, FrozenDecl;
    FrozenFirst(d, version, imports, rest, key, kind);
    OwnThenRest(d, rest, key, kind);
    FirstIsMember(Flatten(d.others), key, kind);
  }

  /** Rewriting the declaration is freezing its facts. */
  lemma FrozenMeaning(d: Decl, version: nat, imports: seq<string>, rest: seq<Decl>)
    requires Shallow(d.others) && ListsVersions(d, rest)
    ensures Meaning(AllFields([FrozenDecl(d, version, imports)] + rest)) ==
            Frozen(Meaning(AllFields([d] + rest)), version)
  {
    hide AllFields, ListsVersions, Shallow, First, FrozenDecl, VersionsOf, SortedSet;
    VersionsOfFrozen(d, version, imports, rest);
    FrozenFirst(d, version, imports, rest, "frozen", TrueOrFalse);
    OtherKeysStay(d, version, imports, rest, "unstable", TrueOrFalse);
    OtherKeysStay(d, version, imports, rest, "vendor_available", TrueOrFalse);
    OtherKeysStay(d, version, imports, rest, "stability", Vintf);
    SortedSetAppend(VersionsOf(AllFields([d] + rest)), version);
  }

  // ---- The rewritten declaration can be printed and found like the old one ----

  lemma {:induction false} FrozenFieldsArePlain(fs: seq<Field>, version: nat, imports: seq<string>)
    requires PlainFields(fs) && PlainStrings(imports)
    ensures PlainFields(FrozenFields(fs, version, imports))
  {
    hide FrozenField, PlainField, PlainStrings;
    if fs != [] {
      FrozenFieldIsPlain(fs[0], version, imports);
      FrozenFieldsArePlain(fs[1..], version, imports);
    }
  }

  lemma FrozenFieldIsPlain(f: Field, version: nat, imports: seq<string>)
    requires PlainField(f) && PlainStrings(imports)
    ensures PlainField(FrozenField(f, version, imports))
  {
    NumeralIsPlain(version);
    hide PlainString, Dec;
  }

  lemma NumeralIsPlain(n: nat)
    ensures PlainString(Dec(n))
  {
    var s := Dec(n);
    hide Dec;
    assert forall i :: 0 <= i < |s| ==> IsDigit(s[i]);
  }

  lemma {:induction false} FrozenFieldsAreApart(fs: seq<Field>, version: nat, imports: seq<string>, filter: string)
    requires FieldsApart(fs, filter)
    ensures FieldsApart(FrozenFields(fs, version, imports), filter)
  {
    hide Contains;
    if fs != [] {
      FrozenFieldsAreApart(fs[1..], version, imports, filter);
    }
  }

  lemma FrozenDeclIsPlain(d: Decl, version: nat, imports: seq<string>, filter: string)
    requires PlainDecl(d) && PlainStrings(imports) && Apart(d, filter)
    ensures PlainDecl(FrozenDecl(d, version, imports)) && Apart(FrozenDecl(d, version, imports), filter)
  {
    FrozenFieldsArePlain(d.others, version, imports);
    FrozenFieldsAreApart(d.others, version, imports, filter);
    hide FrozenFields, PlainString, PlainStrings, PlainKind, Contains, SaysFrozen;
    KeysAreWords();
    var fs, flag := FrozenFields(d.others, version, imports), Flag("frozen", true);
    assert PlainField(flag) && FieldApart(flag, filter);
    var gs := [flag] + fs;
    assert gs[0] == flag && gs[1..] == fs;
    assert PlainFields(gs) && FieldsApart(gs, filter);
  }

  lemma {:induction false} FrozenFieldsAreTyped(fs: seq<Field>, version: nat, imports: seq<string>)
    requires Typed(Flatten(fs))
    ensures Typed(Flatten(FrozenFields(fs, version, imports)))
    decreases |fs|
  {
    hide Flatten, Typed, FrozenField;
    if fs != [] {
      var gs := FrozenFields(fs, version, imports);
      assert gs[0] == FrozenField(fs[0], version, imports) && gs[1..] == FrozenFields(fs[1..], version, imports);
      assert fs == [fs[0]] + fs[1..] && gs == [gs[0]] + gs[1..];
      FlattenConcat([fs[0]], fs[1..]);
      FlattenConcat([gs[0]], gs[1..]);
      TypedConcat(Flatten([fs[0]]), Flatten(fs[1..]));
      TypedConcat(Flatten([gs[0]]), Flatten(gs[1..]));
      FrozenFieldIsTyped(fs[0], version, imports);
      FrozenFieldsAreTyped(fs[1..], version, imports);
    }
  }

  lemma TypedConcat(a: seq<Field>, b: seq<Field>)
    ensures Typed(a + b) <==> Typed(a) && Typed(b)
  {
    var c := a + b;
    assert forall i :: 0 <= i < |a| ==> a[i] == c[i];
    assert forall i :: 0 <= i < |b| ==> b[i] == c[|a| + i];
  }

  lemma FrozenFieldIsTyped(f: Field, version: nat, imports: seq<string>)
    requires Typed(Flatten([f]))
    ensures Typed(Flatten([FrozenField(f, version, imports)]))
  {
    var g := FrozenField(f, version, imports);
    OneFlattened(f);
    OneFlattened(g);
    hide Flatten, FlattenInfos, Typed, Dec;
    TypedConcat([f], FlattenOne(f));
    TypedConcat([g], FlattenOne(g));
    assert Typed([f]) ==> Typed([g]) by { SameNameTyped(f, g); }
    if f.Infos? {
      InfosAreTyped(g.infos);
    }
  }

  lemma OneFlattened(f: Field)
    ensures Flatten([f]) == [f] + FlattenOne(f)
  {
    assert [f][1..] == [];
  }

  lemma SameNameTyped(f: Field, g: Field)
    requires f.name == g.name && f.Strs? == g.Strs? && f.Infos? == g.Infos? && Typed([f])
    ensures Typed([g])
  {
    assert [f][0] == f;
  }

  lemma {:induction false} InfosAreTyped(infos: seq<Info>)
    ensures Typed(FlattenInfos(infos))
  {
    if infos != [] {
      InfosAreTyped(infos[1..]);
    }
  }

  lemma FrozenDeclIsTyped(d: Decl, version: nat, imports: seq<string>, rest: seq<Decl>)
    requires Typed(AllFields([d] + rest))
    ensures Typed(AllFields([FrozenDecl(d, version, imports)] + rest))
  {
    var e := FrozenDecl(d, version, imports);
    var own, flag := Str("name", d.name), Flag("frozen", true);
    var fs := FrozenFields(d.others, version, imports);
    assert ([d] + rest)[1..] == rest && ([e] + rest)[1..] == rest;
    FlattenLeaf(own);
    FlattenLeaf(flag);
    LeavesAreTyped(d.name);
    hide Flatten, Typed, FrozenFields;
    TypedConcat(Flatten(FieldsOf(d)), AllFields(rest));
    TypedConcat(Flatten(FieldsOf(e)), AllFields(rest));
    FlattenConcat([own], d.others);
    FlattenConcat([own], e.others);
    FlattenConcat([flag], fs);
    TypedConcat([own], Flatten(d.others));
    TypedConcat([own], Flatten(e.others));
    TypedConcat([flag], Flatten(fs));
    FrozenFieldsAreTyped(d.others, version, imports);
  }

  lemma LeavesAreTyped(name: string)
    ensures Typed([Str("name", name)]) && Typed([Flag("frozen", true)])
  {
  }

  // ---- The whole way ----

  /** Everything PrintedInterface asks of a file, an interface in it and its defaults. */
  ghost predicate Reads(bs: seq<Block>, p: Place, at: seq<Option<Place>>) {
    ReadsDecl(bs, p, at, INTERFACE, DEFAULTS, ByQuote) && Typed(AllFields([p.decl] + Chosen(at)))
  }

  ghost predicate DroppedFrom(text: string, name: string, version: nat) {
    var c := Candidate(version, ExtractedBlock(text, name));
    Located(c) && var f := FactsIn(c.block.value); version in Built(f) && Consumable(f)
  }

  lemma DropReadsBack(bs: seq<Block>, p: Place, at: seq<Option<Place>>, version: nat)
    requires Reads(bs, p, at)
    ensures var f := Meaning(AllFields([p.decl] + Chosen(at)));
            DroppedFrom(PrintFile(bs), p.decl.name, version) <==> version in Built(f) && Consumable(f)
  {
    hide ReadsDecl, Typed, AllFields, FactsIn, Meaning, PrintFile, BlockTexts, ExtractedBlock, Built, Consumable,
         Chosen;
    PrintedInterface(bs, p, at);
    TextsAreSome([p.decl] + Chosen(at));
  }

  lemma TextsAreSome(ds: seq<Decl>)
    requires ds != []
    ensures BlockTexts(ds) != ""
  {
  }

  /** The file with the frozen declaration is read like the old one. */
  lemma FrozenFileReads(bs: seq<Block>, p: Place, at: seq<Option<Place>>, version: nat, imports: seq<string>)
    requires Reads(bs, p, at) && Apart(p.decl, DEFAULTS)
    requires PlainStrings(imports) && Shallow(p.decl.others)
    ensures var e := FrozenDecl(p.decl, version, imports);
            Reads(bs[p.index := ToBlock(e)], Place(p.index, e), at)
  {
    var d, e := p.decl, FrozenDecl(p.decl, version, imports);
    hide Names, Resolves, PlainDecl, First, Flatten, FieldsOf, AllFields, ToBlock, Typed, Shallow, FrozenFields,
         Contains, Chosen, PlainStrings, FieldsApart, SaysFrozen;
    DefaultsIsWord();
    ReadsDeclMeans(bs, p, at, INTERFACE, DEFAULTS, ByQuote);
    FrozenDeclIsPlain(d, version, imports, DEFAULTS);
    FrozenDeclIsTyped(d, version, imports, Chosen(at));
    OtherKeysStay(d, version, imports, [], "defaults", Bracket);
    OwnFields(d);
    OwnFields(e);
    NamesMean(bs, p, d.name, INTERFACE, ByQuote);
    BodyIs(d);
    RewriteKeepsTarget(bs, p, e, INTERFACE, ByQuote);
    RewriteKeepsAllNames(bs, p.index, e, DefaultsOf(Flatten(FieldsOf(d))), at, DEFAULTS, ByQuote);
  }

  /** Freezing the current version in the source file, wherever the interface stands in it and
      whatever defaults it uses, changes no DROP decision for any prebuilt of the interface. */
  lemma FreezingTheFileKeepsDecisions(bs: seq<Block>, p: Place, at: seq<Option<Place>>, version: nat,
                                      imports: seq<string>, prebuilt: nat)
    requires Reads(bs, p, at) && Apart(p.decl, DEFAULTS)
    requires PlainStrings(imports) && Shallow(p.decl.others) && ListsVersions(p.decl, Chosen(at))
    requires Current(Meaning(AllFields([p.decl] + Chosen(at)))) == Some(version)
    ensures DroppedFrom(PrintFile(bs), p.decl.name, prebuilt) <==>
            DroppedFrom(PrintFile(bs[p.index := ToBlock(FrozenDecl(p.decl, version, imports))]), p.decl.name, prebuilt)
  {
    var e := FrozenDecl(p.decl, version, imports);
    var rest := Chosen(at);
    assert e.name == p.decl.name;
    hide Reads, ListsVersions, FrozenDecl, AllFields, Meaning, DroppedFrom, PrintFile, Built, Consumable,
         Current, Frozen, Chosen, Apart, PlainStrings, Shallow, ToBlock;
    FrozenFileReads(bs, p, at, version, imports);
    DropReadsBack(bs, p, at, prebuilt);
    DropReadsBack(bs[p.index := ToBlock(e)], Place(p.index, e), at, prebuilt);
    FrozenMeaning(p.decl, version, imports, rest);
    FreezingKeepsDecisions(Meaning(AllFields([p.decl] + rest)), version);
  }

  // ---- The other interfaces of the file ----

  predicate IsStringList(f: Field) {
    f.Strs? && f.name == "versions"
  }

  /** The version is put into a list of strings that stands under a brace declared as wanted. */
  predicate SaysVersion(fs: seq<Field>, version: nat, imports: seq<string>, filter: string, wanted: bool) {
    fs != [] &&
    ((IsStringList(fs[0]) && wanted)
     || SaysVersion(fs[1..], version, imports, filter,
                    WantedAfter(FieldMentions(FrozenField(fs[0], version, imports)), filter, wanted)))
  }

  lemma FrozenFieldAttractsLess(f: Field, version: nat, imports: seq<string>, name: string, filter: string,
                                less: bool, more: bool)
    requires IsKey(filter) && (less ==> more) && !(name == Dec(version) && IsStringList(f) && less)
    ensures var g := FrozenField(f, version, imports);
            && (Attracts(FieldMentions(g), name, filter, ByQuote, less) ==>
                  Attracts(FieldMentions(f), name, filter, ByQuote, more))
            && (WantedAfter(FieldMentions(g), filter, less) ==> WantedAfter(FieldMentions(f), filter, more))
  {
    hide Attracts, WantedAfter, Dec, Said, InfosMentions, InfoMentions, Mentions, IsKey;
    AttractsIsMonotone(FieldMentions(f), name, filter, ByQuote, less, more);
    match f
    case Infos(_, infos) =>
      InfosAppend(infos, Info(version, imports));
      MentionsConcat(InfosMentions(infos), InfoMentions(Info(version, imports)), name, filter, ByQuote, less);
      InfoNeverAttracts(Info(version, imports), name, filter, ByQuote, WantedAfter(InfosMentions(infos), filter, less));
    case Strs(_, values) =>
      SaidAttracts(values, name, filter, ByQuote, more);
      SaidAttracts(values + [Dec(version)], name, filter, ByQuote, less);
    case _ =>
  }

  /** The rewritten fields say no name they did not say before, but for the version. */
  lemma {:induction false} FrozenFieldsAttractLess(fs: seq<Field>, version: nat, imports: seq<string>, name: string,
                                                   filter: string, less: bool, more: bool)
    requires IsKey(filter) && (less ==> more)
    requires !(name == Dec(version) && SaysVersion(fs, version, imports, filter, less))
    ensures var gs := FrozenFields(fs, version, imports);
            Attracts(Mentions(gs), name, filter, ByQuote, less) ==> Attracts(Mentions(fs), name, filter, ByQuote, more)
    decreases |fs|
  {
    SaysVersionStep(fs, version, imports, filter, less);
    hide *;
    var gs := FrozenFields(fs, version, imports);
    FirstMentions(fs);
    FirstMentions(gs);
    FirstFrozen(fs, version, imports);
    if fs != [] {
      FrozenFieldAttractsLess(fs[0], version, imports, name, filter, less, more);
      MentionsConcat(FieldMentions(fs[0]), Mentions(fs[1..]), name, filter, ByQuote, more);
      MentionsConcat(FieldMentions(gs[0]), Mentions(gs[1..]), name, filter, ByQuote, less);
      FrozenFieldsAttractLess(fs[1..], version, imports, name, filter,
                              WantedAfter(FieldMentions(gs[0]), filter, less),
                              WantedAfter(FieldMentions(fs[0]), filter, more));
    } else {
      NothingAttracts(name, filter, less);
    }
  }

  lemma SaysVersionStep(fs: seq<Field>, version: nat, imports: seq<string>, filter: string, wanted: bool)
    ensures SaysVersion(fs, version, imports, filter, wanted) <==>
            fs != [] &&
            ((IsStringList(fs[0]) && wanted)
             || SaysVersion(fs[1..], version, imports, filter,
                            WantedAfter(FieldMentions(FrozenField(fs[0], version, imports)), filter, wanted)))
  {
    hide FrozenField, FieldMentions, WantedAfter, IsStringList;
  }

  lemma StringListSays(f: Field, version: nat, imports: seq<string>, filter: string)
    requires IsStringList(f)
    ensures Attracts(FieldMentions(FrozenField(f, version, imports)), Dec(version), filter, ByQuote, true)
  {
    hide Dec, Said, Attracts;
    SaidAttracts(f.values + [Dec(version)], Dec(version), filter, ByQuote, true);
  }

  lemma {:induction false} VersionIsSaid(fs: seq<Field>, version: nat, imports: seq<string>, filter: string,
                                         wanted: bool)
    requires SaysVersion(fs, version, imports, filter, wanted)
    ensures Attracts(Mentions(FrozenFields(fs, version, imports)), Dec(version), filter, ByQuote, wanted)
    decreases |fs|
  {
    SaysVersionStep(fs, version, imports, filter, wanted);
    hide *;
    var gs := FrozenFields(fs, version, imports);
    FirstMentions(gs);
    FirstFrozen(fs, version, imports);
    MentionsConcat(FieldMentions(gs[0]), Mentions(gs[1..]), Dec(version), filter, ByQuote, wanted);
    if IsStringList(fs[0]) && wanted {
      StringListSays(fs[0], version, imports, filter);
    } else {
      VersionIsSaid(fs[1..], version, imports, filter, WantedAfter(FieldMentions(gs[0]), filter, wanted));
    }
  }

  lemma NothingAttracts(name: string, filter: string, wanted: bool)
    ensures !Attracts([], name, filter, ByQuote, wanted)
  {
  }

  lemma FirstFrozen(fs: seq<Field>, version: nat, imports: seq<string>)
    ensures var gs := FrozenFields(fs, version, imports);
            && (fs == [] ==> gs == [])
            && (fs != [] ==> gs != [] && gs[0] == FrozenField(fs[0], version, imports)
                             && gs[1..] == FrozenFields(fs[1..], version, imports))
  {
    hide FrozenField;
  }

  lemma MentionsOfDecl(d: Decl)
    ensures Mentions(FieldsOf(d)) == [Says(d.name, true)] + Mentions(d.others)
  {
    hide Mentions;
    FirstMentions(FieldsOf(d));
    assert FieldsOf(d)[0] == Str("name", d.name) && FieldsOf(d)[1..] == d.others;
  }

  lemma MentionsOfFrozen(d: Decl, version: nat, imports: seq<string>)
    ensures Mentions(FrozenDecl(d, version, imports).others) == Mentions(FrozenFields(d.others, version, imports))
  {
    hide Mentions, FrozenFields, SaysFrozen;
    var flag, fs := Flag("frozen", true), FrozenFields(d.others, version, imports);
    FirstMentions([flag] + fs);
    assert ([flag] + fs)[0] == flag && ([flag] + fs)[1..] == fs;
    assert [] + Mentions(fs) == Mentions(fs);
  }

  /** The frozen declaration is taken for the name although the old one was not. */
  predicate FreezeHides(d: Decl, version: nat, imports: seq<string>, name: string, filter: string) {
    name == Dec(version) && SaysVersion(d.others, version, imports, filter, Contains(d.kind, filter))
  }

  /** Freezing a declaration attracts no lookup that it did not attract before, except, and then
      always, one for a name spelled like the version that its list of strings says. */
  lemma FrozenStaysUnambiguousIff(d: Decl, version: nat, imports: seq<string>, name: string, filter: string)
    requires PlainDecl(d) && PlainDecl(FrozenDecl(d, version, imports))
    requires Searchable(name) && IsKey(filter) && Unambiguous(ToBlock(d), name, filter)
    ensures Unambiguous(ToBlock(FrozenDecl(d, version, imports)), name, filter) <==>
            !FreezeHides(d, version, imports, name, filter)
  {
    var e := FrozenDecl(d, version, imports);
    var wanted := Contains(d.kind, filter);
    assert e.kind == d.kind && e.name == d.name;
    NameKeepsWanted(d.name, filter, wanted);
    FreezeHidesMeans(d, version, imports, name, filter);
    hide *;
    ClearIffAttracts(d, name, filter, ByQuote);
    ClearIffAttracts(e, name, filter, ByQuote);
    MentionsOfDecl(d);
    MentionsOfDecl(e);
    MentionsOfFrozen(d, version, imports);
    MentionsConcat([Says(d.name, true)], Mentions(d.others), name, filter, ByQuote, wanted);
    MentionsConcat([Says(d.name, true)], Mentions(e.others), name, filter, ByQuote, wanted);
    if FreezeHides(d, version, imports, name, filter) {
      VersionIsSaid(d.others, version, imports, filter, wanted);
    } else {
      FrozenFieldsAttractLess(d.others, version, imports, name, filter, wanted, wanted);
    }
  }

  lemma FreezeHidesMeans(d: Decl, version: nat, imports: seq<string>, name: string, filter: string)
    ensures FreezeHides(d, version, imports, name, filter) <==>
            name == Dec(version) && SaysVersion(d.others, version, imports, filter, Contains(d.kind, filter))
  {
  }

  lemma NameKeepsWanted(name: string, filter: string, wanted: bool)
    ensures WantedAfter([Says(name, true)], filter, wanted) == wanted
  {
    assert [Says(name, true)][1..] == [];
  }

  /** Another interface of the file is read the same after the freeze. */
  lemma OtherInterfaceReads(bs: seq<Block>, p: Place, q: Place, at: seq<Option<Place>>, version: nat,
                            imports: seq<string>)
    requires StandsIn(bs, p) && Apart(p.decl, DEFAULTS) && PlainStrings(imports)
    requires Reads(bs, q, at) && q.index != p.index
    requires p.index < q.index ==>
               Searchable(q.decl.name) && !FreezeHides(p.decl, version, imports, q.decl.name, INTERFACE)
    ensures Reads(bs[p.index := ToBlock(FrozenDecl(p.decl, version, imports))], q, at)
  {
    var e := FrozenDecl(p.decl, version, imports);
    var names := DefaultsOf(Flatten(FieldsOf(q.decl)));
    hide Resolves, PlainDecl, First, Flatten, FieldsOf, AllFields, ToBlock, Typed, FrozenFields, Contains, Chosen,
         PlainStrings, FieldsApart, SaysFrozen, WellFormed, Unambiguous, FrozenDecl, Searchable, FreezeHides;
    DefaultsIsWord();
    InterfaceIsWord();
    BodyIs(p.decl);
    FrozenDeclIsPlain(p.decl, version, imports, DEFAULTS);
    PlainDeclIsWellFormed(e);
    if p.index < q.index {
      FrozenStaysUnambiguousIff(p.decl, version, imports, q.decl.name, INTERFACE);
    }
    RewriteKeepsAllNames(bs, p.index, e, names, at, DEFAULTS, ByQuote);
  }

  /** Exactly when a later interface is still found after the freeze. */
  lemma OtherInterfaceIsFoundIff(bs: seq<Block>, p: Place, q: Place, version: nat, imports: seq<string>)
    requires StandsIn(bs, p) && PlainStrings(imports) && Apart(p.decl, DEFAULTS) && p.index < q.index
    requires Names(bs, q, q.decl.name, INTERFACE, ByQuote) && Searchable(q.decl.name)
    ensures var bs' := bs[p.index := ToBlock(FrozenDecl(p.decl, version, imports))];
            FirstQualifying(PrintFile(bs'), Quoted(q.decl.name), INTERFACE, 0) ==
            |PrintFile(bs'[..q.index])| + |bs'[q.index].kind| + 2 + |NAME_FIELD|
            <==> !FreezeHides(p.decl, version, imports, q.decl.name, INTERFACE)
  {
    hide *;
    var e := FrozenDecl(p.decl, version, imports);
    InterfaceIsWord();
    NamesMean(bs, q, q.decl.name, INTERFACE, ByQuote);
    ClearMeans(bs, q.index, q.decl.name, INTERFACE);
    StandsMeans(bs, p);
    FrozenDeclIsPlain(p.decl, version, imports, DEFAULTS);
    PlainDeclIsWellFormed(e);
    FrozenStaysUnambiguousIff(p.decl, version, imports, q.decl.name, INTERFACE);
    var bs' := bs[p.index := ToBlock(e)];
    OneRewritten(bs, p.index, bs', q.index, q.decl.name, INTERFACE);
    LookupEndsInTargetIff(bs', q.index, q.decl.name, INTERFACE);
  }

  lemma StandsMeans(bs: seq<Block>, p: Place)
    requires StandsIn(bs, p)
    ensures p.index < |bs| && bs[p.index] == ToBlock(p.decl) && PlainDecl(p.decl)
  {
    hide ToBlock, PlainDecl;
  }

  /** When all but one of the earlier blocks are unambiguous, that one decides. */
  lemma OneRewritten(bs: seq<Block>, i: nat, cs: seq<Block>, t: nat, name: string, filter: string)
    requires i < t < |bs| == |cs| && cs == bs[i := cs[i]] && WellFormed(cs[i]) && WellFormed(bs[t])
    requires forall j :: 0 <= j < t ==> WellFormed(bs[j]) && Unambiguous(bs[j], name, filter)
    ensures cs[t] == bs[t] && forall j :: 0 <= j <= t ==> WellFormed(cs[j])
    ensures Unambiguous(cs[i], name, filter) <==> forall j :: 0 <= j < t ==> Unambiguous(cs[j], name, filter)
  {
    hide WellFormed, Unambiguous;
    assert forall j :: 0 <= j < |bs| && j != i ==> cs[j] == bs[j];
  }

  lemma InterfaceIsWord()
    ensures IsKey(INTERFACE)
  {
  }

  /** Nor does freezing one interface change a DROP decision for any prebuilt of another interface
      of the file, as long as that one is still found. */
  lemma FreezingKeepsOtherDecisions(bs: seq<Block>, p: Place, q: Place, at: seq<Option<Place>>, version: nat,
                                    imports: seq<string>, prebuilt: nat)
    requires StandsIn(bs, p) && Apart(p.decl, DEFAULTS) && PlainStrings(imports)
    requires Reads(bs, q, at) && q.index != p.index
    requires p.index < q.index ==>
               Searchable(q.decl.name) && !FreezeHides(p.decl, version, imports, q.decl.name, INTERFACE)
    ensures DroppedFrom(PrintFile(bs), q.decl.name, prebuilt) <==>
            DroppedFrom(PrintFile(bs[p.index := ToBlock(FrozenDecl(p.decl, version, imports))]), q.decl.name, prebuilt)
  {
    assert p.index < |bs|;
    hide *;
    OtherInterfaceReads(bs, p, q, at, version, imports);
    DropReadsBack(bs, q, at, prebuilt);
    DropReadsBack(bs[p.index := ToBlock(FrozenDecl(p.decl, version, imports))], q, at, prebuilt);
  }
}
