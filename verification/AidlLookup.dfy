/** From an Android.bp file to the facts about one interface (verify_aidl_versions.py,
    extract_block followed by parse_versions): find the interface block, append the defaults
    blocks it lists, and read the fields of the whole. */
module AidlLookup {
  import opened Text
  import opened SoongFiles
  import opened SoongScanner
  import opened SoongFields
  import opened SoongPrinter
  import opened SoongDecls
  import opened AidlVersions
  import opened AidlRoundTrip

  const INTERFACE := "aidl_interface"
  const DEFAULTS := "aidl_interface_defaults"

  /** findall of `"([^"]+)"`. */
  function QuotedNames(s: string): seq<string> {
    if s == "" then []
    else if s[0] != '"' then QuotedNames(s[1..])
    else
      var e := FindChar(s[1..], '"');
      if e > 0 then [s[1..1 + e]] + QuotedNames(s[e + 2..]) else QuotedNames(s[1..])
  }

  /** The names listed in the first `defaults: [...]`, which ends at its first closing bracket. */
  function DefaultsNames(block: string): seq<string> {
    match ValueText(block, "defaults", Bracket)
    case None => []
    case Some(v) =>
      var close := FindChar(v, ']');
      if close == -1 || v == "" || close == 0 then [] else QuotedNames(v[1..close])
  }

  /** block followed by every listed defaults block the file has. */
  function Inlined(text: string, block: string, names: seq<string>): string
    decreases |names|
  {
    if names == [] then block
    else
      match NamedBlock(text, names[0], DEFAULTS)
      case Some(db) => Inlined(text, block + "\n" + db, names[1..])
      case None => Inlined(text, block, names[1..])
  }

  function ExtractedBlock(text: string, name: string): Option<string> {
    match NamedBlock(text, name, INTERFACE)
    case None => None
    case Some(block) => Some(Inlined(text, block, DefaultsNames(block)))
  }

  method ExtractBlock(text: string, fullName: string) returns (r: Option<string>)
    ensures r == ExtractedBlock(text, fullName)
  {
    hide NamedBlock, DefaultsNames;
    var found := ExtractNamedBlock(text, fullName, INTERFACE);
    if found.None? {
      return None;
    }
    var block := found.value;
    var names := DefaultsNames(block);
    for i := 0 to |names|
      invariant Inlined(text, found.value, names) == Inlined(text, block, names[i..])
    {
      assert names[i..][1..] == names[i + 1..];
      var db := ExtractNamedBlock(text, names[i], DEFAULTS);
      if db.Some? {
        block := block + "\n" + db.value;
      }
    }
    return Some(block);
  }

  // ---- Reading the list of defaults back ----

  lemma SkipToQuote(v: string, s: string)
    requires Free(v, '"')
    ensures QuotedNames(v + s) == QuotedNames(s)
  {
    if v == "" {
      assert v + s == s;
    } else {
      assert (v + s)[1..] == v[1..] + s;
      SkipToQuote(v[1..], s);
    }
  }

  lemma FindInConcat(v: string, c: char, s: string)
    requires Free(v, c)
    ensures FindChar(v + [c] + s, c) == |v|
  {
    var r := FindChar(v + [c] + s, c);
    assert (v + [c] + s)[|v|] == c;
    assert forall i :: 0 <= i < |v| ==> (v + [c] + s)[i] == v[i];
  }

  lemma QuotedNameFirst(v: string, s: string)
    requires Free(v, '"') && v != ""
    ensures QuotedNames(Quoted(v) + s) == [v] + QuotedNames(s)
  {
    hide FindChar, Free;
    var t := Quoted(v) + s;
    FindInConcat(v, '"', s);
    assert t[1..] == v + ['"'] + s;
    assert t[1..1 + |v|] == v && t[|v| + 2..] == s;
  }

  lemma {:induction false} PrintedNames(values: seq<string>)
    requires forall i :: 0 <= i < |values| ==> Free(values[i], '"') && values[i] != ""
    ensures QuotedNames(PrintStrings(values)) == values
  {
    if |values| == 1 {
      assert Quoted(values[0]) + "" == Quoted(values[0]);
      QuotedNameFirst(values[0], "");
    } else if values != [] {
      var rest := PrintStrings(values[1..]);
      assert PrintStrings(values) == Quoted(values[0]) + (", " + rest);
      QuotedNameFirst(values[0], ", " + rest);
      SkipToQuote(", ", rest);
      PrintedNames(values[1..]);
    }
  }

  predicate NonEmpty(values: seq<string>) {
    forall i :: 0 <= i < |values| ==> values[i] != ""
  }

  lemma DefaultsReadBack(block: string, values: seq<string>, after: string)
    requires PlainStrings(values) && NonEmpty(values)
    requires ValueText(block, "defaults", Bracket) == Some("[" + PrintStrings(values) + "]" + after)
    ensures DefaultsNames(block) == values
  {
    hide *;
    StringsArePlain(values);
    NamesAreNames(values);
    StringsAreFlat(values);
    PrintedNames(values);
    var p := PrintStrings(values);
    CloseIsFirst(p, after);
    DefaultsNamesAre(block, p, after);
  }

  lemma {:induction false} NoNameIsEmpty(s: string)
    ensures NonEmpty(QuotedNames(s))
    decreases |s|
  {
    if s != "" {
      NoNameIsEmpty(s[1..]);
      var e := FindChar(s[1..], '"');
      if s[0] == '"' && e > 0 {
        NoNameIsEmpty(s[e + 2..]);
      }
    }
  }

  lemma NamesComeFromQuotes(block: string)
    ensures NonEmpty(DefaultsNames(block))
  {
    match ValueText(block, "defaults", Bracket)
    case None =>
    case Some(v) =>
      var close := FindChar(v, ']');
      if close > 0 {
        NoNameIsEmpty(v[1..close]);
      }
  }

  /** The names of a printed list are read back exactly when none is empty. */
  lemma DefaultsReadBackIff(block: string, values: seq<string>, after: string)
    requires PlainStrings(values)
    requires ValueText(block, "defaults", Bracket) == Some("[" + PrintStrings(values) + "]" + after)
    ensures DefaultsNames(block) == values <==> NonEmpty(values)
  {
    hide *;
    NamesComeFromQuotes(block);
    if NonEmpty(values) {
      DefaultsReadBack(block, values, after);
    }
  }

  /** After an empty name quotes open where they should close: what separates the names is read as
      one, and the next name is not. */
  lemma EmptyNameIsMisread(a: string)
    requires Free(a, '"')
    ensures QuotedNames(PrintStrings(["", a])) == [", "]
  {
    var s := PrintStrings(["", a]);
    assert ["", a][1..] == [a] && PrintStrings([a]) == Quoted(a);
    assert Quoted("") == ['"', '"'] && ", " == [',', ' '] && Quoted(a) == ['"'] + (a + ['"']);
    assert s == ['"', '"', ',', ' ', '"'] + (a + ['"']);
    assert s[1..] == ['"', ',', ' ', '"'] + (a + ['"']);
    assert s[2..] == [',', ' '] + ['"'] + (a + ['"']);
    FindInConcat([',', ' '], '"', a + ['"']);
    assert s[1..][4..] == a + ['"'];
    assert s[1..][1..3] == ", ";
    OneQuoteNamesNothing(a);
  }

  lemma {:induction false} OneQuoteNamesNothing(a: string)
    requires Free(a, '"')
    ensures QuotedNames(a + ['"']) == []
  {
    if a == "" {
      assert (a + ['"'])[1..] == "";
    } else {
      assert (a + ['"'])[1..] == a[1..] + ['"'];
      OneQuoteNamesNothing(a[1..]);
    }
  }

  lemma NamesAreNames(values: seq<string>)
    requires NonEmpty(values)
    ensures forall i :: 0 <= i < |values| ==> values[i] != ""
  {
  }

  lemma CloseIsFirst(p: string, after: string)
    requires Free(p, ']')
    ensures FindChar("[" + p + "]" + after, ']') == 1 + |p|
  {
    assert Free("[" + p, ']');
    FindInConcat("[" + p, ']', after);
    assert "[" + p + "]" + after == ("[" + p) + [']'] + after;
  }

  lemma DefaultsNamesAre(block: string, p: string, after: string)
    requires ValueText(block, "defaults", Bracket) == Some("[" + p + "]" + after)
    requires FindChar("[" + p + "]" + after, ']') == 1 + |p|
    ensures DefaultsNames(block) == QuotedNames(p)
  {
    hide ValueText, FindChar, QuotedNames;
    var v := "[" + p + "]" + after;
    assert v[1..1 + |p|] == p;
  }

  lemma StringsArePlain(values: seq<string>)
    requires PlainStrings(values)
    ensures forall i :: 0 <= i < |values| ==>
              Free(values[i], '[') && Free(values[i], ']') && Free(values[i], '"')
  {
    forall i | 0 <= i < |values|
      ensures Free(values[i], '[') && Free(values[i], ']') && Free(values[i], '"')
    {
      assert PlainString(values[i]);
    }
  }

  // ---- What the printed blocks say ----

  /** The fields of several blocks, in order. */
  function AllFields(ds: seq<Decl>): seq<Field> {
    if ds == [] then [] else Flatten(FieldsOf(ds[0])) + AllFields(ds[1..])
  }

  /** The text of several blocks, each after the first on a new line. */
  function BlockTexts(ds: seq<Decl>): string
    requires ds != []
  {
    if |ds| == 1 then BlockText(ToBlock(ds[0]))
    else BlockText(ToBlock(ds[0])) + "\n" + BlockTexts(ds[1..])
  }

  lemma OneBlockText(lead: string, d: Decl, rest: string)
    ensures lead + BlockText(ToBlock(d)) + rest ==
            (lead + "{") + PrintFields(FieldsOf(d), INDENT) + ("\n" + "" + "}" + rest)
  {
    hide PrintFields, FieldsOf;
  }

  lemma SearchBlock(lead: string, d: Decl, rest: string, key: string, kind: ValueKind)
      returns (ind: string, after: string, tail: string)
    requires Quiet(lead) && PlainDecl(d) && IsKey(key)
    ensures Finds(lead + BlockText(ToBlock(d)) + rest, Flatten(FieldsOf(d)), key, kind, ind, after, tail, rest)
    ensures Quiet(tail)
  {
    hide *;
    PlainDeclIsWellFormed(d);
    OneBlockText(lead, d, rest);
    BraceIsQuiet();
    QuietConcat(lead, "{");
    var t;
    ind, after, t := SearchFields(lead + "{", FieldsOf(d), INDENT, "\n" + "" + "}" + rest, key, kind);
    QuietConcat(t, "\n}");
    tail := t + "\n}";
    assert t + ("\n" + "" + "}" + rest) == tail + rest;
    FindsRest(lead + BlockText(ToBlock(d)) + rest, Flatten(FieldsOf(d)), key, kind,
              ind, after, t, "\n" + "" + "}" + rest, tail, rest);
  }

  lemma BraceIsQuiet()
    ensures QuietAfter("{") && QuietAfter("\n}") && QuietAfter("\n") && Quiet("")
  {
  }

  lemma {:induction false} SearchBlocks(lead: string, ds: seq<Decl>, key: string, kind: ValueKind)
      returns (ind: string, after: string, tail: string)
    requires Quiet(lead) && ds != [] && IsKey(key) && forall i :: 0 <= i < |ds| ==> PlainDecl(ds[i])
    ensures Finds(lead + BlockTexts(ds), AllFields(ds), key, kind, ind, after, tail, "")
    ensures Quiet(tail)
    decreases |ds|
  {
    hide *;
    BraceIsQuiet();
    var d := ds[0];
    BlockTextsUnfold(ds);
    var rest := if |ds| == 1 then "" else "\n" + BlockTexts(ds[1..]);
    assert lead + BlockTexts(ds) == lead + BlockText(ToBlock(d)) + rest;
    ind, after, tail := SearchBlock(lead, d, rest, key, kind);
    if |ds| > 1 {
      QuietConcat(tail, "\n");
      var more := BlockTexts(ds[1..]);
      var i2, a2, t2 := SearchBlocks(tail + "\n", ds[1..], key, kind);
      assert tail + rest == tail + "\n" + more;
      FindsThen(lead + BlockTexts(ds), tail + "\n" + more, Flatten(FieldsOf(d)), AllFields(ds[1..]), key, kind,
                ind, after, tail, rest, i2, a2, t2, "");
      if First(Flatten(FieldsOf(d)), key, kind).None? {
        ind, after := i2, a2;
      }
      tail := t2;
    }
  }

  lemma BlockTextsUnfold(ds: seq<Decl>)
    requires ds != []
    ensures BlockTexts(ds) ==
            BlockText(ToBlock(ds[0])) + (if |ds| == 1 then "" else "\n" + BlockTexts(ds[1..]))
    ensures |ds| == 1 ==> AllFields(ds) == Flatten(FieldsOf(ds[0]))
    ensures |ds| > 1 ==> AllFields(ds) == Flatten(FieldsOf(ds[0])) + AllFields(ds[1..])
  {
    hide BlockText, ToBlock, Flatten, FieldsOf, AllFields;
    AllFieldsUnfold(ds);
  }

  lemma AllFieldsUnfold(ds: seq<Decl>)
    requires ds != []
    ensures AllFields(ds) == Flatten(FieldsOf(ds[0])) + AllFields(ds[1..])
    ensures |ds| == 1 ==> AllFields(ds) == Flatten(FieldsOf(ds[0]))
  {
    hide Flatten, FieldsOf;
    assert |ds| == 1 ==> ds[1..] == [];
  }

  /** A search over printed blocks finds the first matching field of the blocks in order, or
      nothing. */
  lemma SearchTexts(ds: seq<Decl>, key: string, kind: ValueKind) returns (ind: string, after: string)
    requires ds != [] && IsKey(key) && forall i :: 0 <= i < |ds| ==> PlainDecl(ds[i])
    ensures AllSpaces(ind)
    ensures match First(AllFields(ds), key, kind)
            case Some(f) => ValueText(BlockTexts(ds), key, kind) == Some(PrintValue(f, ind) + "," + after)
            case None => ValueText(BlockTexts(ds), key, kind) == None
  {
    hide PrintValue, ValueText, First, AllFields, BlockTexts, PlainDecl, Quiet, AllSpaces;
    BraceIsQuiet();
    var tail;
    ind, after, tail := SearchBlocks("", ds, key, kind);
    assert "" + BlockTexts(ds) == BlockTexts(ds);
    if First(AllFields(ds), key, kind).None? {
      assert tail + "" == tail;
      QuietHasNoValue(tail, key, kind);
      ind := "";
      NoSpaces();
    }
  }

  lemma NoSpaces()
    ensures AllSpaces("")
  {
  }

  // ---- The facts the printed blocks state ----

  function FlagOf(flat: seq<Field>, key: string): (r: Option<bool>) {
    match First(flat, key, TrueOrFalse)
    case Some(Flag(_, on)) => Some(on)
    case _ => None
  }

  function VersionsOf(flat: seq<Field>): seq<nat> {
    match First(flat, "versions_with_info", Bracket)
    case Some(Infos(_, infos)) => Versions(infos)
    case Some(_) => []
    case None =>
      match First(flat, "versions", Bracket)
      case Some(Strs(_, values)) => Numbers(values)
      case _ => []
  }

  /** What a list of fields says about the interface: for each key its first field counts. */
  function Meaning(flat: seq<Field>): Facts {
    Facts(SortedSet(VersionsOf(flat)), FlagOf(flat, "frozen"), FlagOf(flat, "unstable") == Some(true),
          FlagOf(flat, "vendor_available"), First(flat, "stability", Vintf).Some?)
  }

  /** The version keys hold the kind of list Soong gives them. */
  predicate Typed(flat: seq<Field>) {
    forall i :: 0 <= i < |flat| ==>
      && (flat[i].name == "versions_with_info" ==> !flat[i].Strs?)
      && (flat[i].name == "versions" ==> !flat[i].Infos?)
  }

  lemma {:induction false} FirstIsMember(flat: seq<Field>, key: string, kind: ValueKind)
    ensures match First(flat, key, kind)
            case Some(f) => f in flat && f.name == key && HasKind(f, kind)
            case None => true
  {
    if flat != [] && !(flat[0].name == key && HasKind(flat[0], kind)) {
      FirstIsMember(flat[1..], key, kind);
    }
  }

  lemma {:induction false} InfosFlatArePlain(infos: seq<Info>, f: Field)
    requires PlainInfos(infos) && f in FlattenInfos(infos)
    ensures PlainField(f)
  {
    if f == Str("version", Dec(infos[0].version)) {
    } else if f == Strs("imports", infos[0].imports) {
      assert PlainStrings(infos[0].imports);
    } else {
      InfosFlatArePlain(infos[1..], f);
    }
  }

  lemma {:induction false} FlatArePlain(fs: seq<Field>, f: Field)
    requires PlainFields(fs) && f in Flatten(fs)
    ensures PlainField(f)
    decreases fs
  {
    if f != fs[0] {
      if f in Flatten(fs[1..]) {
        FlatArePlain(fs[1..], f);
      } else if fs[0].Infos? {
        InfosFlatArePlain(fs[0].infos, f);
      } else {
        FlatArePlain(fs[0].fields, f);
      }
    }
  }

  lemma {:induction false} AllArePlain(ds: seq<Decl>, f: Field)
    requires (forall i :: 0 <= i < |ds| ==> PlainDecl(ds[i])) && f in AllFields(ds)
    ensures PlainField(f)
    decreases |ds|
  {
    hide PlainDecl, PlainField, Flatten, FieldsOf;
    if f in Flatten(FieldsOf(ds[0])) {
      PlainDeclIsWellFormed(ds[0]);
      FlatArePlain(FieldsOf(ds[0]), f);
    } else {
      AllArePlain(ds[1..], f);
    }
  }

  lemma PlainInfosArePlainImports(infos: seq<Info>)
    requires PlainInfos(infos)
    ensures forall i :: 0 <= i < |infos| ==> PlainImports(infos[i].imports)
  {
    forall i, k | 0 <= i < |infos| && 0 <= k < |infos[i].imports|
      ensures var v := infos[i].imports[k]; BraceFree(v) && Free(v, '[') && Free(v, ']') && Free(v, '"')
    {
      assert PlainStrings(infos[i].imports) && PlainString(infos[i].imports[k]);
    }
  }

  lemma KeysAreWords()
    ensures IsKey("frozen") && IsKey("unstable") && IsKey("vendor_available") && IsKey("stability")
    ensures IsKey("versions_with_info") && IsKey("versions") && IsKey("defaults")
  {
  }

  lemma DefaultsIsWord()
    ensures IsKey(DEFAULTS)
  {
  }

  lemma FlagReadsBack(ds: seq<Decl>, key: string)
    requires ds != [] && IsKey(key) && forall i :: 0 <= i < |ds| ==> PlainDecl(ds[i])
    ensures FlagIn(BlockTexts(ds), key) == FlagOf(AllFields(ds), key)
  {
    hide ValueText, AllFields, BlockTexts, PlainDecl, First;
    var ind, after := SearchTexts(ds, key, TrueOrFalse);
    FirstIsMember(AllFields(ds), key, TrueOrFalse);
    match First(AllFields(ds), key, TrueOrFalse)
    case Some(f) => FlagText(f, ind, after);
    case None =>
  }

  lemma FlagText(f: Field, ind: string, after: string)
    requires f.Flag?
    ensures "true" <= PrintValue(f, ind) + "," + after <==> f.on
  {
    var s := PrintValue(f, ind) + "," + after;
    if f.on {
      assert s[..4] == "true";
    } else {
      assert s[0] == 'f';
    }
  }

  lemma VersionsReadBack(ds: seq<Decl>)
    requires ds != [] && (forall i :: 0 <= i < |ds| ==> PlainDecl(ds[i])) && Typed(AllFields(ds))
    ensures FactsIn(BlockTexts(ds)).versions == SortedSet(VersionsOf(AllFields(ds)))
  {
    hide *;
    KeysAreWords();
    var flat, block := AllFields(ds), BlockTexts(ds);
    VersionsOfIs(flat);
    var ind, after := SearchTexts(ds, "versions_with_info", Bracket);
    match First(flat, "versions_with_info", Bracket)
    case Some(f) =>
      MemberIsPlain(ds, f, "versions_with_info");
      InfosFieldReadsBack(block, f, ind, after);
    case None =>
      var ind2, after2 := SearchTexts(ds, "versions", Bracket);
      match First(flat, "versions", Bracket)
      case Some(f) =>
        MemberIsPlain(ds, f, "versions");
        StringsFieldReadsBack(block, f, ind2, after2);
      case None =>
        NoVersions(block);
  }

  lemma MemberIsPlain(ds: seq<Decl>, f: Field, key: string)
    requires (forall i :: 0 <= i < |ds| ==> PlainDecl(ds[i])) && First(AllFields(ds), key, Bracket) == Some(f)
    ensures PlainField(f)
  {
    hide *;
    FirstIsMember(AllFields(ds), key, Bracket);
    AllArePlain(ds, f);
  }

  lemma {:induction false} VersionsOfIs(flat: seq<Field>)
    requires Typed(flat)
    ensures match First(flat, "versions_with_info", Bracket)
            case Some(f) => f.Infos? && f.name == "versions_with_info" && VersionsOf(flat) == Versions(f.infos)
            case None =>
              match First(flat, "versions", Bracket)
              case Some(f) => f.Strs? && f.name == "versions" && VersionsOf(flat) == Numbers(f.values)
              case None => VersionsOf(flat) == []
  {
    hide First, Versions, Numbers;
    FirstIsMember(flat, "versions_with_info", Bracket);
    FirstIsMember(flat, "versions", Bracket);
  }

  lemma NoVersions(block: string)
    requires ValueText(block, "versions_with_info", Bracket) == None
    requires ValueText(block, "versions", Bracket) == None
    ensures FactsIn(block).versions == SortedSet([])
  {
    hide FindValue, Walk, NumbersIn;
  }

  lemma InfosFieldReadsBack(block: string, f: Field, ind: string, after: string)
    requires f.Infos? && f.name == "versions_with_info" && PlainField(f) && AllSpaces(ind)
    requires ValueText(block, "versions_with_info", Bracket) == Some(PrintValue(f, ind) + "," + after)
    ensures FactsIn(block).versions == SortedSet(Versions(f.infos))
  {
    hide *;
    InfosOf(f);
    PlainInfosArePlainImports(f.infos);
    Regroup(PrintValue(f, ind), ",", after);
    InfosReadBack(block, f.infos, ind, "," + after);
  }

  lemma InfosOf(f: Field)
    requires f.Infos? && f.name == "versions_with_info" && PlainField(f)
    ensures PlainInfos(f.infos) && f == Infos("versions_with_info", f.infos)
  {
  }

  lemma Regroup(a: string, b: string, c: string)
    ensures a + b + c == a + (b + c)
  {
  }

  lemma StringsFieldReadsBack(block: string, f: Field, ind: string, after: string)
    requires f.Strs? && f.name == "versions" && PlainField(f)
    requires ValueText(block, "versions_with_info", Bracket) == None
    requires ValueText(block, "versions", Bracket) == Some(PrintValue(f, ind) + "," + after)
    ensures FactsIn(block).versions == SortedSet(Numbers(f.values))
  {
    StringsArePlain(f.values);
    hide FactsIn, PrintStrings, ValueText, PlainField, Numbers, SortedSet;
    assert PrintValue(f, ind) + "," + after == "[" + PrintStrings(f.values) + "]" + ("," + after);
    StringsReadBack(block, f.values, "," + after);
  }

  /** Printing blocks and parsing their text gives back exactly what the fields state. */
  lemma FactsReadBack(ds: seq<Decl>)
    requires ds != [] && (forall i :: 0 <= i < |ds| ==> PlainDecl(ds[i])) && Typed(AllFields(ds))
    ensures FactsIn(BlockTexts(ds)) == Meaning(AllFields(ds))
  {
    hide FlagIn, FlagOf, ValueText, First, SortedSet, VersionsOf, VersionsIn, AllFields, BlockTexts, PlainDecl, Typed,
         IsKey;
    KeysAreWords();
    VersionsReadBack(ds);
    FlagReadsBack(ds, "frozen");
    FlagReadsBack(ds, "unstable");
    FlagReadsBack(ds, "vendor_available");
    var ind, after := SearchTexts(ds, "stability", Vintf);
  }

  lemma OwnThenRest(d: Decl, rest: seq<Decl>, key: string, kind: ValueKind)
    requires key != "name"
    ensures First(AllFields([d] + rest), key, kind) ==
            if First(Flatten(d.others), key, kind).Some? then First(Flatten(d.others), key, kind)
            else First(AllFields(rest), key, kind)
  {
    assert ([d] + rest)[1..] == rest;
    var own := Str("name", d.name);
    FlattenLeaf(own);
    hide Flatten;
    FlattenConcat([own], d.others);
    FirstOfConcat(Flatten(FieldsOf(d)), AllFields(rest), key, kind);
    assert ([own] + Flatten(d.others))[1..] == Flatten(d.others);
  }

  lemma OwnFields(d: Decl)
    ensures AllFields([d] + []) == Flatten(FieldsOf(d))
  {
    hide Flatten;
    assert ([d] + [])[1..] == [];
  }

  // ---- The whole way: file, lookup, defaults, facts ----

  function DefaultsOf(flat: seq<Field>): seq<string> {
    match First(flat, "defaults", Bracket)
    case Some(Strs(_, values)) => values
    case _ => []
  }

  lemma BlockTextsAppend(ds: seq<Decl>, d: Decl)
    requires ds != []
    ensures BlockTexts(ds + [d]) == BlockTexts(ds) + "\n" + BlockText(ToBlock(d))
  {
    hide BlockText, ToBlock;
    if |ds| == 1 {
      assert (ds + [d])[1..] == [d];
    } else {
      assert (ds + [d])[1..] == ds[1..] + [d];
      BlockTextsAppend(ds[1..], d);
    }
  }

  lemma {:induction false} DefaultsInlined(bs: seq<Block>, soFar: seq<Decl>,
                                           names: seq<string>, at: seq<Option<Place>>)
    requires soFar != [] && Resolves(bs, names, at, DEFAULTS, ByQuote)
    ensures Inlined(PrintFile(bs), BlockTexts(soFar), names) == BlockTexts(soFar + Chosen(at))
    decreases |names|
  {
    hide PlainString, Names, ClearBefore, NamedBlock, PrintFile, BlockTexts, BlockText, ToBlock;
    if names == [] {
      assert soFar + Chosen(at) == soFar;
    } else {
      assert ResolvesTo(bs, names[0], at[0], DEFAULTS, ByQuote);
      assert Resolves(bs, names[1..], at[1..], DEFAULTS, ByQuote);
      match at[0]
      case Some(p) =>
        DeclFound(bs, p, names[0], DEFAULTS);
        BlockTextsAppend(soFar, p.decl);
        DefaultsInlined(bs, soFar + [p.decl], names[1..], at[1..]);
        assert soFar + [p.decl] + Chosen(at[1..]) == soFar + Chosen(at);
      case None =>
        DeclNotFound(bs, names[0], DEFAULTS);
        DefaultsInlined(bs, soFar, names[1..], at[1..]);
        assert Chosen(at) == Chosen(at[1..]);
    }
  }

  lemma DefaultsFound(d: Decl)
    requires PlainDecl(d) && NonEmpty(DefaultsOf(Flatten(FieldsOf(d))))
    requires First(Flatten(FieldsOf(d)), "defaults", Bracket) != None ==>
               First(Flatten(FieldsOf(d)), "defaults", Bracket).value.Strs?
    ensures DefaultsNames(BlockText(ToBlock(d))) == DefaultsOf(Flatten(FieldsOf(d)))
  {
    KeysAreWords();
    hide PlainDecl, ValueText, First, FieldsOf, BlockText, ToBlock, PlainField, PrintStrings;
    var flat := Flatten(FieldsOf(d));
    BlockTextsUnfold([d]);
    assert AllFields([d]) == flat && BlockTexts([d]) == BlockText(ToBlock(d));
    var ind, after := SearchTexts([d], "defaults", Bracket);
    FirstIsMember(flat, "defaults", Bracket);
    match First(flat, "defaults", Bracket)
    case Some(f) =>
      AllArePlain([d], f);
      assert PlainStrings(f.values) by { StringsOf(f); }
      assert PrintValue(f, ind) + "," + after == "[" + PrintStrings(f.values) + "]" + ("," + after);
      DefaultsReadBack(BlockText(ToBlock(d)), f.values, "," + after);
    case None =>
  }

  lemma StringsOf(f: Field)
    requires PlainField(f) && f.Strs?
    ensures PlainStrings(f.values)
  {
  }

  /** A declaration of the file under its own name, with what the names in its defaults list
      stand for; a `defaults` field of another kind than a list of strings is excluded. */
  ghost predicate ReadsDecl(bs: seq<Block>, p: Place, at: seq<Option<Place>>, kind: string, defaultsKind: string,
                            how: Scanner) {
    && Names(bs, p, p.decl.name, kind, how)
    && var flat := Flatten(FieldsOf(p.decl));
       && Resolves(bs, DefaultsOf(flat), at, defaultsKind, how)
       && (First(flat, "defaults", Bracket) != None ==> First(flat, "defaults", Bracket).value.Strs?)
  }

  lemma ReadsDeclMeans(bs: seq<Block>, p: Place, at: seq<Option<Place>>, kind: string, defaultsKind: string,
                       how: Scanner)
    requires ReadsDecl(bs, p, at, kind, defaultsKind, how)
    ensures PlainDecl(p.decl) && Names(bs, p, p.decl.name, kind, how)
    ensures Resolves(bs, DefaultsOf(Flatten(FieldsOf(p.decl))), at, defaultsKind, how)
    ensures DefaultsNames(BlockText(ToBlock(p.decl))) == DefaultsOf(Flatten(FieldsOf(p.decl)))
  {
    hide PlainDecl, First, Flatten, FieldsOf, BlockText, ToBlock, DefaultsOf, DefaultsNames, PlainString, ClearBefore,
         Contains;
    var names := DefaultsOf(Flatten(FieldsOf(p.decl)));
    forall k | 0 <= k < |names|
      ensures names[k] != ""
    {
      assert ResolvesTo(bs, names[k], at[k], defaultsKind, how);
    }
    DefaultsFound(p.decl);
  }

  /** End to end: for every printed file, the block extracted for an interface is that interface's
      own block followed by the defaults blocks it lists, wherever in the file they stand, and
      parsing it yields exactly what their fields state. */
  lemma PrintedInterface(bs: seq<Block>, p: Place, at: seq<Option<Place>>)
    requires ReadsDecl(bs, p, at, INTERFACE, DEFAULTS, ByQuote) && Typed(AllFields([p.decl] + Chosen(at)))
    ensures ExtractedBlock(PrintFile(bs), p.decl.name) == Some(BlockTexts([p.decl] + Chosen(at)))
    ensures FactsIn(BlockTexts([p.decl] + Chosen(at))) == Meaning(AllFields([p.decl] + Chosen(at)))
  {
    hide Names, Resolves, Typed, PlainDecl, First, Flatten, FieldsOf, AllFields, BlockText, ToBlock,
         FactsIn, Meaning, DefaultsOf, DefaultsNames, NamedBlock, PrintFile, ReadsDecl;
    ReadsDeclMeans(bs, p, at, INTERFACE, DEFAULTS, ByQuote);
    var names := DefaultsOf(Flatten(FieldsOf(p.decl)));
    DeclFound(bs, p, p.decl.name, INTERFACE);
    assert BlockTexts([p.decl]) == BlockText(ToBlock(p.decl));
    DefaultsInlined(bs, [p.decl], names, at);
    ChosenArePlain(bs, names, at, DEFAULTS, ByQuote);
    FactsReadBack([p.decl] + Chosen(at));
  }

  /** A defaults block that comes before the interface of the same name is taken for it: its kind
      contains the wanted one. */
  lemma DefaultsShadowInterface(bs: seq<Block>, p: Place)
    requires StandsIn(bs, p) && p.decl.kind == DEFAULTS && ClearBefore(bs, p.index, p.decl.name, INTERFACE, ByQuote)
    ensures NamedBlock(PrintFile(bs), p.decl.name, INTERFACE) == Some(BlockText(ToBlock(p.decl)))
  {
    hide NamedBlock, PrintFile, BlockText, ToBlock, PlainDecl, ClearBefore;
    assert DEFAULTS[0..|INTERFACE|] == INTERFACE;
    OccurrenceIsContained(DEFAULTS, INTERFACE, 0);
    DeclFound(bs, p, p.decl.name, INTERFACE);
  }
}
