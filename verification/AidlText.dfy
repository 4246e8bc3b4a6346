/** What the script decides for source files written out as text (verify_aidl_versions.py): an
    interface with a list of versions, flags and defaults. */
module AidlText {
  import opened Text
  import opened SoongScanner
  import opened SoongFiles
  import opened SoongFields
  import opened SoongPrinter
  import opened SoongDecls
  import opened AidlVersions
  import opened AidlRoundTrip
  import opened AidlLookup
  import opened AidlDecision
  import opened AidlFreezing

  /** A flag on a line of its own, where it is stated. */
  function FlagLine(key: string, on: Option<bool>): string {
    match on
    case None => ""
    case Some(b) => "\n    " + key + ": " + (if b then "true" else "false") + ","
  }

  /** Versions as quoted numerals, separated by commas. */
  function VersionList(vs: seq<nat>): string {
    if vs == [] then "" else "\"" + Dec(vs[0]) + "\"" + (if |vs| == 1 then "" else ", " + VersionList(vs[1..]))
  }

  function FlagPart(key: string, on: Option<bool>): seq<Field> {
    match on
    case None => []
    case Some(b) => [Flag(key, b)]
  }

  function FlagFields(frozen: Option<bool>, unstable: Option<bool>, available: Option<bool>, vintf: bool): seq<Field> {
    FlagPart("frozen", frozen) + (FlagPart("unstable", unstable)
      + (FlagPart("vendor_available", available) + (if vintf then [Str("stability", "vintf")] else [])))
  }

  function FlagLines(frozen: Option<bool>, unstable: Option<bool>, available: Option<bool>, vintf: bool): string {
    FlagLine("frozen", frozen) + FlagLine("unstable", unstable) + FlagLine("vendor_available", available)
    + (if vintf then "\n    stability: \"vintf\"," else "")
  }

  lemma {:induction false} PrintConcat(a: seq<Field>, b: seq<Field>, indent: string)
    ensures PrintFields(a + b, indent) == PrintFields(a, indent) + PrintFields(b, indent)
    decreases |a|
  {
    hide Line, PrintValue;
    if a == [] {
      assert a + b == b;
    } else {
      assert (a + b)[1..] == a[1..] + b;
      PrintConcat(a[1..], b, indent);
    }
  }

  lemma PrintOne(f: Field)
    ensures PrintFields([f], INDENT) == "\n    " + f.name + ": " + PrintValue(f, INDENT) + ","
  {
    hide PrintValue;
    assert [f][1..] == [] && PrintFields([], INDENT) == "";
  }

  lemma FlagPrinted(key: string, on: Option<bool>)
    ensures PrintFields(FlagPart(key, on), INDENT) == FlagLine(key, on)
  {
    if on.Some? {
      PrintOne(Flag(key, on.value));
    }
  }

  lemma FlagsPrinted(frozen: Option<bool>, unstable: Option<bool>, available: Option<bool>, vintf: bool)
    ensures PrintFields(FlagFields(frozen, unstable, available, vintf), INDENT) ==
            FlagLines(frozen, unstable, available, vintf)
  {
    hide *;
    FlagPrinted("frozen", frozen);
    FlagPrinted("unstable", unstable);
    FlagPrinted("vendor_available", available);
    VintfPrinted(vintf);
    var s := if vintf then [Str("stability", "vintf")] else [];
    var c, b, a := FlagPart("vendor_available", available), FlagPart("unstable", unstable), FlagPart("frozen", frozen);
    PrintConcat(c, s, INDENT);
    PrintConcat(b, c + s, INDENT);
    PrintConcat(a, b + (c + s), INDENT);
    FlagsAre(frozen, unstable, available, vintf);
  }

  lemma FlagsAre(frozen: Option<bool>, unstable: Option<bool>, available: Option<bool>, vintf: bool)
    ensures FlagFields(frozen, unstable, available, vintf) ==
            FlagPart("frozen", frozen) + (FlagPart("unstable", unstable)
              + (FlagPart("vendor_available", available) + (if vintf then [Str("stability", "vintf")] else [])))
    ensures FlagLines(frozen, unstable, available, vintf) ==
            FlagLine("frozen", frozen) + FlagLine("unstable", unstable) + FlagLine("vendor_available", available)
            + (if vintf then "\n    stability: \"vintf\"," else "")
  {
    hide FlagPart, FlagLine;
  }

  lemma VintfPrinted(vintf: bool)
    ensures PrintFields(if vintf then [Str("stability", "vintf")] else [], INDENT) ==
            if vintf then "\n    stability: \"vintf\"," else ""
  {
    if vintf {
      PrintOne(Str("stability", "vintf"));
    }
  }

  lemma {:induction false} VersionsPrinted(vs: seq<nat>)
    ensures PrintStrings(PrintNumerals(vs)) == VersionList(vs)
  {
    hide Dec;
    if vs != [] {
      VersionsPrinted(vs[1..]);
      assert PrintNumerals(vs)[1..] == PrintNumerals(vs[1..]);
    }
  }

  // ---- Reading the fields ----

  lemma FirstOfFlagPart(key0: string, on: Option<bool>, key: string, kind: ValueKind)
    ensures First(FlagPart(key0, on), key, kind) ==
            if on.Some? && key0 == key && kind == TrueOrFalse then Some(Flag(key, on.value)) else None
  {
  }

  lemma FirstOfVintf(vintf: bool, key: string, kind: ValueKind)
    ensures First(if vintf then [Str("stability", "vintf")] else [], key, kind) ==
            if vintf && key == "stability" && kind == Vintf then Some(Str("stability", "vintf")) else None
  {
  }

  /** Reading the flags gives what was written. */
  lemma FlagsRead(frozen: Option<bool>, unstable: Option<bool>, available: Option<bool>, vintf: bool,
                  key: string, kind: ValueKind)
    ensures First(FlagFields(frozen, unstable, available, vintf), key, kind) ==
            if kind == Vintf then (if vintf && key == "stability" then Some(Str("stability", "vintf")) else None)
            else if kind != TrueOrFalse then None
            else
              var on := if key == "frozen" then frozen else if key == "unstable" then unstable
                        else if key == "vendor_available" then available else None;
              if on.Some? then Some(Flag(key, on.value)) else None
  {
    hide *;
    FlagsAre(frozen, unstable, available, vintf);
    FirstOfFlagPart("frozen", frozen, key, kind);
    FirstOfFlagPart("unstable", unstable, key, kind);
    FirstOfFlagPart("vendor_available", available, key, kind);
    FirstOfVintf(vintf, key, kind);
    var s := if vintf then [Str("stability", "vintf")] else [];
    var c, b, a := FlagPart("vendor_available", available), FlagPart("unstable", unstable), FlagPart("frozen", frozen);
    FirstOfConcat(c, s, key, kind);
    FirstOfConcat(b, c + s, key, kind);
    FirstOfConcat(a, b + (c + s), key, kind);
  }

  predicate Leaves(fs: seq<Field>) {
    forall i :: 0 <= i < |fs| ==> IsLeaf(fs[i]) && PlainField(fs[i])
  }

  lemma {:induction false} LeavesAreFlat(fs: seq<Field>)
    requires Leaves(fs)
    ensures Flatten(fs) == fs && PlainFields(fs)
  {
    hide PlainField;
    if fs != [] {
      assert IsLeaf(fs[0]);
      LeavesAreFlat(fs[1..]);
    }
  }

  lemma {:induction false} LeavesAreApart(fs: seq<Field>, filter: string)
    requires Leaves(fs)
    ensures FieldsApart(fs, filter)
  {
    hide PlainField;
    if fs != [] {
      assert IsLeaf(fs[0]);
      LeavesAreApart(fs[1..], filter);
    }
  }

  lemma LeavesConcat(a: seq<Field>, b: seq<Field>)
    requires Leaves(a) && Leaves(b)
    ensures Leaves(a + b)
  {
    hide PlainField, IsLeaf;
  }

  lemma FlagsAreLeaves(frozen: Option<bool>, unstable: Option<bool>, available: Option<bool>, vintf: bool)
    ensures Leaves(FlagFields(frozen, unstable, available, vintf))
    ensures forall i :: 0 <= i < |FlagFields(frozen, unstable, available, vintf)| ==>
              !FlagFields(frozen, unstable, available, vintf)[i].Strs?
  {
    KeysAreWords();
    VintfIsPlain();
    hide IsKey, PlainString;
  }

  lemma VintfIsPlain()
    ensures PlainString("vintf")
  {
  }

  lemma {:induction false} NumeralsArePlain(vs: seq<nat>)
    ensures PlainStrings(PrintNumerals(vs))
  {
    hide PlainString, Dec;
    if vs != [] {
      NumeralIsPlain(vs[0]);
      NumeralsArePlain(vs[1..]);
    }
  }

  // ---- Files as text ----

  /** A declaration with its name first, then these lines. */
  function DeclText(kind: string, name: string, lines: string): string {
    kind + " {" + "\n    name: \"" + name + "\"," + lines + "\n" + "}" + "\n"
  }

  lemma DeclPrinted(d: Decl, lines: string)
    requires PrintFields(d.others, INDENT) == lines
    ensures PrintBlock(ToBlock(d)) == DeclText(d.kind, d.name, lines)
  {
    hide *;
    FieldsPrinted(d);
    BodyIs(d);
    BlockPrinted(ToBlock(d), d.name, lines);
  }

  lemma FieldsPrinted(d: Decl)
    ensures PrintFields(FieldsOf(d), INDENT) ==
            "\n    " + "name" + ": " + ("\"" + d.name + "\"") + "," + PrintFields(d.others, INDENT)
  {
    var own := Str("name", d.name);
    PrintOne(own);
    assert FieldsOf(d) == [own] + d.others && PrintValue(own, INDENT) == "\"" + d.name + "\"";
    hide *;
    PrintConcat([own], d.others, INDENT);
  }

  lemma BlockPrinted(b: Block, name: string, lines: string)
    requires b.body == "\n    " + "name" + ": " + ("\"" + name + "\"") + "," + lines + "\n"
    ensures PrintBlock(b) == DeclText(b.kind, name, lines)
  {
    var head := "\n    name: \"";
    assert head == "\n    " + "name" + ": " + "\"";
    assert b.body == head + name + "\"," + lines + "\n" by {
      assert "\n    " + "name" + ": " + ("\"" + name + "\"") == head + name + "\"";
    }
    assert PrintBlock(b) == b.kind + " {" + b.body + "}" + "\n";
  }

  lemma OneBlock(b: Block)
    ensures PrintFile([b]) == PrintBlock(b)
  {
    hide PrintBlock;
    assert [b][..0] == [] && PrintFile([]) == "";
  }

  lemma TwoBlocks(b: Block, c: Block)
    ensures PrintFile([b, c]) == PrintBlock(b) + PrintBlock(c)
  {
    hide PrintBlock;
    OneBlock(b);
    assert [b, c][..1] == [b];
  }

  lemma KindsArePlain()
    ensures PlainKind("aidl_interface") && PlainKind("aidl_interface_defaults")
    ensures Contains("aidl_interface", INTERFACE) && Contains("aidl_interface_defaults", DEFAULTS)
    ensures !Contains("aidl_interface", DEFAULTS)
  {
    assert "aidl_interface"[0..|INTERFACE|] == INTERFACE;
    OccurrenceIsContained("aidl_interface", INTERFACE, 0);
    assert "aidl_interface_defaults"[0..|DEFAULTS|] == DEFAULTS;
    OccurrenceIsContained("aidl_interface_defaults", DEFAULTS, 0);
  }

  lemma LeafDecl(kind: string, name: string, others: seq<Field>)
    requires PlainKind(kind) && PlainString(name) && Leaves(others)
    ensures PlainDecl(Decl(kind, name, others))
    ensures Flatten(FieldsOf(Decl(kind, name, others))) == [Str("name", name)] + others
  {
    var own := Str("name", name);
    assert PlainField(own) && IsLeaf(own);
    hide PlainField, PlainKind, PlainString;
    LeavesConcat([own], others);
    LeavesAreFlat(others);
    LeavesAreFlat([own] + others);
  }

  lemma BehindName(name: string, others: seq<Field>, key: string, kind: ValueKind)
    requires key != "name"
    ensures First([Str("name", name)] + others, key, kind) == First(others, key, kind)
  {
    assert ([Str("name", name)] + others)[1..] == others;
  }

  lemma BehindList(f: Field, others: seq<Field>, key: string, kind: ValueKind)
    requires f.Strs?
    ensures First([f] + others, key, kind) ==
            if f.name == key && kind == Bracket then Some(f) else First(others, key, kind)
  {
    assert ([f] + others)[1..] == others;
  }

  predicate IsFactKey(key: string) {
    key == "frozen" || key == "unstable" || key == "vendor_available" || key == "stability"
  }

  lemma FactKeysAreOther()
    ensures forall k :: IsFactKey(k) ==>
              k != "name" && k != "defaults" && k != "versions" && k != "versions_with_info" && k != "version"
              && k != "imports"
    ensures "versions_with_info" != "name" && "versions_with_info" != "version" && "versions_with_info" != "imports"
    ensures "defaults" != "name" && "defaults" != "version" && "defaults" != "imports"
  {
  }

  /** The flags a block states, whatever else is not asked. */
  lemma FlagsMean(flat: seq<Field>, frozen: Option<bool>, unstable: Option<bool>, available: Option<bool>, vintf: bool)
    requires forall key, kind :: IsFactKey(key) && kind != Bracket ==>
               First(flat, key, kind) == First(FlagFields(frozen, unstable, available, vintf), key, kind)
    ensures FlagOf(flat, "frozen") == frozen && FlagOf(flat, "unstable") == unstable
    ensures FlagOf(flat, "vendor_available") == available
    ensures First(flat, "stability", Vintf).Some? <==> vintf
  {
    hide FlagFields, First;
    FlagsRead(frozen, unstable, available, vintf, "frozen", TrueOrFalse);
    FlagsRead(frozen, unstable, available, vintf, "unstable", TrueOrFalse);
    FlagsRead(frozen, unstable, available, vintf, "vendor_available", TrueOrFalse);
    FlagsRead(frozen, unstable, available, vintf, "stability", Vintf);
  }

  /** What a list of versions and the flags mean. */
  lemma MeaningIs(flat: seq<Field>, vs: seq<nat>, frozen: Option<bool>, unstable: Option<bool>,
                  available: Option<bool>, vintf: bool)
    requires First(flat, "versions_with_info", Bracket) == None
    requires First(flat, "versions", Bracket) == Some(Strs("versions", PrintNumerals(vs)))
    requires forall key, kind :: IsFactKey(key) && kind != Bracket ==>
               First(flat, key, kind) == First(FlagFields(frozen, unstable, available, vintf), key, kind)
    ensures Meaning(flat) ==
            Facts(SortedSet(vs), frozen, unstable == Some(true), available, vintf)
  {
    FlagsMean(flat, frozen, unstable, available, vintf);
    NumbersOfNumerals(vs);
    hide FlagFields, FlagOf, Numbers, PrintNumerals, SortedSet, First, IsFactKey;
  }

  /** The decision, spelled out. */
  predicate Expected(vs: seq<nat>, frozen: Option<bool>, unstable: Option<bool>, available: Option<bool>, vintf: bool,
                     v: nat) {
    && (available == Some(true) || vintf)
    && (|| v in vs
        || (unstable != Some(true) && frozen != Some(true) && v > 0 && v - 1 in vs && forall w :: w in vs ==> w < v))
  }

  lemma ExpectedIsDropped(f: Facts, vs: seq<nat>, frozen: Option<bool>, unstable: Option<bool>,
                          available: Option<bool>, vintf: bool, v: nat)
    requires f == Facts(SortedSet(vs), frozen, unstable == Some(true), available, vintf)
    ensures v in Built(f) && Consumable(f) <==> Expected(vs, frozen, unstable, available, vintf, v)
  {
    BuiltIff(f, v);
    var s := SortedSet(vs);
    assert forall x :: x in s <==> x in vs;
    hide Built, SortedSet;
  }

  lemma ActionIs(bs: seq<Block>, p: Place, at: seq<Option<Place>>, vs: seq<nat>, frozen: Option<bool>,
                 unstable: Option<bool>, available: Option<bool>, vintf: bool, v: nat, action: Action)
    requires Reads(bs, p, at)
    requires Meaning(AllFields([p.decl] + Chosen(at))) ==
             Facts(SortedSet(vs), frozen, unstable == Some(true), available, vintf)
    requires Justified(Candidate(v, ExtractedBlock(PrintFile(bs), p.decl.name)), action)
    ensures action == if Expected(vs, frozen, unstable, available, vintf, v) then Drop else Keep
  {
    DropReadsBack(bs, p, at, v);
    ExpectedIsDropped(Meaning(AllFields([p.decl] + Chosen(at))), vs, frozen, unstable, available, vintf, v);
    InterfaceIsLocated(bs, p, at);
    hide Reads, Meaning, AllFields, Chosen, Expected, SortedSet, FactsIn, Built, Consumable, ExtractedBlock, PrintFile;
  }

  lemma InterfaceIsLocated(bs: seq<Block>, p: Place, at: seq<Option<Place>>)
    requires Reads(bs, p, at)
    ensures var b := ExtractedBlock(PrintFile(bs), p.decl.name); b.Some? && b.value != ""
  {
    hide ReadsDecl, Typed, AllFields, FactsIn, Meaning, PrintFile, BlockTexts, ExtractedBlock, Chosen;
    PrintedInterface(bs, p, at);
    TextsAreSome([p.decl] + Chosen(at));
  }

  /** The fields of a declaration that lists versions and states flags. */
  lemma ListedFields(n: string, vs: seq<nat>, frozen: Option<bool>, unstable: Option<bool>,
                     available: Option<bool>, vintf: bool, key: string, kind: ValueKind)
    requires key != "name"
    ensures var flags := FlagFields(frozen, unstable, available, vintf);
            var list := Strs("versions", PrintNumerals(vs));
            First([Str("name", n)] + ([list] + flags), key, kind) ==
            if key == "versions" && kind == Bracket then Some(list) else First(flags, key, kind)
  {
    hide *;
    var list := Strs("versions", PrintNumerals(vs));
    var flags := FlagFields(frozen, unstable, available, vintf);
    BehindName(n, [list] + flags, key, kind);
    BehindList(list, flags, key, kind);
  }

  lemma InterfaceReads(n: string, vs: seq<nat>, frozen: Option<bool>, unstable: Option<bool>,
                       available: Option<bool>, vintf: bool, d: Decl)
    requires PlainString(n) && Leaves(d.others)
    requires d == Decl("aidl_interface", n, [Strs("versions", PrintNumerals(vs))]
                       + FlagFields(frozen, unstable, available, vintf))
    ensures Reads([ToBlock(d)], Place(0, d), [])
    ensures Meaning(AllFields([d] + Chosen([]))) ==
            Facts(SortedSet(vs), frozen, unstable == Some(true), available, vintf)
  {
    hide *;
    var flags := FlagFields(frozen, unstable, available, vintf);
    KindsArePlain();
    LeafDecl("aidl_interface", n, d.others);
    NothingChosen(d);
    forall key, kind | key != "name"
      ensures First(AllFields([d] + Chosen([])), key, kind) ==
              if key == "versions" && kind == Bracket then Some(Strs("versions", PrintNumerals(vs)))
              else First(flags, key, kind)
    {
      ListedFields(n, vs, frozen, unstable, available, vintf, key, kind);
    }
    FactKeysAreOther();
    FlagsRead(frozen, unstable, available, vintf, "versions_with_info", Bracket);
    FlagsRead(frozen, unstable, available, vintf, "defaults", Bracket);
    MeaningIs(AllFields([d] + Chosen([])), vs, frozen, unstable, available, vintf);
    FlagsAreLeaves(frozen, unstable, available, vintf);
    ListIsTyped(n, PrintNumerals(vs), flags);
    AloneReads(d);
  }

  lemma NothingChosen(d: Decl)
    ensures Chosen([]) == [] && AllFields([d] + Chosen([])) == Flatten(FieldsOf(d))
  {
    hide Flatten, FieldsOf;
    assert [d] + [] == [d] && [d][1..] == [];
  }

  lemma ListIsTyped(n: string, values: seq<string>, flags: seq<Field>)
    requires Leaves(flags) && forall i :: 0 <= i < |flags| ==> !flags[i].Strs?
    ensures Typed([Str("name", n)] + ([Strs("versions", values)] + flags))
  {
    hide PlainField;
    var flat := [Str("name", n)] + ([Strs("versions", values)] + flags);
    forall i | 0 <= i < |flat|
      ensures flat[i].name == "versions_with_info" ==> !flat[i].Strs?
      ensures flat[i].name == "versions" ==> !flat[i].Infos?
    {
      if i >= 2 {
        assert flat[i] == flags[i - 2] && IsLeaf(flags[i - 2]);
      }
    }
  }

  lemma AloneReads(d: Decl)
    requires PlainDecl(d) && Contains(d.kind, INTERFACE) && First(Flatten(FieldsOf(d)), "defaults", Bracket) == None
    requires AllFields([d] + Chosen([])) == Flatten(FieldsOf(d)) && Typed(Flatten(FieldsOf(d)))
    ensures Reads([ToBlock(d)], Place(0, d), [])
  {
    hide PlainDecl, Contains, First, Flatten, FieldsOf, ToBlock, AllFields, Chosen, Typed, Clear;
  }

  /** One interface on its own: exactly which prebuilts are dropped. */
  lemma InterfaceDecided(n: string, vs: seq<nat>, frozen: Option<bool>, unstable: Option<bool>,
                         available: Option<bool>, vintf: bool, v: nat, action: Action)
    requires PlainString(n)
    requires var text := DeclText("aidl_interface", n, "\n    versions: [" + VersionList(vs) + "],"
                                  + FlagLines(frozen, unstable, available, vintf));
             Justified(Candidate(v, ExtractedBlock(text, n)), action)
    ensures action == if Expected(vs, frozen, unstable, available, vintf, v) then Drop else Keep
  {
    hide *;
    var d := Decl("aidl_interface", n, [Strs("versions", PrintNumerals(vs))]
                  + FlagFields(frozen, unstable, available, vintf));
    InterfaceParts(n, vs, frozen, unstable, available, vintf);
    OneBlock(ToBlock(d));
    InterfaceReads(n, vs, frozen, unstable, available, vintf, d);
    ActionIs([ToBlock(d)], Place(0, d), [], vs, frozen, unstable, available, vintf, v, action);
  }

  lemma InterfaceParts(n: string, vs: seq<nat>, frozen: Option<bool>, unstable: Option<bool>, available: Option<bool>,
                       vintf: bool)
    ensures var d := Decl("aidl_interface", n, [Strs("versions", PrintNumerals(vs))]
                          + FlagFields(frozen, unstable, available, vintf));
            && Leaves(d.others)
            && PrintBlock(ToBlock(d)) ==
               DeclText("aidl_interface", n, "\n    versions: [" + VersionList(vs) + "],"
                        + FlagLines(frozen, unstable, available, vintf))
  {
    var flags := FlagFields(frozen, unstable, available, vintf);
    var list := Strs("versions", PrintNumerals(vs));
    NumeralsArePlain(vs);
    KeysAreWords();
    assert PlainField(list) && IsLeaf(list);
    PrintOne(list);
    assert PrintValue(list, INDENT) == "[" + PrintStrings(PrintNumerals(vs)) + "]";
    hide *;
    OneLeaf(list);
    VersionsPrinted(vs);
    FlagsPrinted(frozen, unstable, available, vintf);
    FlagsAreLeaves(frozen, unstable, available, vintf);
    LeavesConcat([list], flags);
    PrintConcat([list], flags, INDENT);
    ListLine("versions", VersionList(vs));
    DeclPrinted(Decl("aidl_interface", n, [list] + flags), "\n    versions: [" + VersionList(vs) + "],"
                + FlagLines(frozen, unstable, available, vintf));
  }

  lemma OneLeaf(f: Field)
    requires IsLeaf(f) && PlainField(f)
    ensures Leaves([f])
  {
  }

  lemma ListLine(key: string, list: string)
    ensures "\n    " + key + ": " + ("[" + list + "]") + "," == "\n    " + key + ": [" + list + "],"
    ensures "\n    " + "versions" + ": [" == "\n    versions: [" && "\n    " + "defaults" + ": [" == "\n    defaults: ["
  {
    assert "\n    " + key + ": " + ("[" + list + "]") + "," == "\n    " + key + (": " + "[") + list + ("]" + ",");
  }

  // ---- An interface that leaves its flags to a defaults declaration ----

  lemma WithDefaultsParts(n: string, dn: string, vs: seq<nat>)
    requires PlainString(dn)
    ensures var d := Decl("aidl_interface", n, [Strs("defaults", [dn])] + [Strs("versions", PrintNumerals(vs))]);
            && Leaves(d.others)
            && PrintBlock(ToBlock(d)) ==
               DeclText("aidl_interface", n, "\n    defaults: [" + ("\"" + dn + "\"") + "],"
                        + ("\n    versions: [" + VersionList(vs) + "],"))
  {
    var defs, list := Strs("defaults", [dn]), Strs("versions", PrintNumerals(vs));
    NumeralsArePlain(vs);
    KeysAreWords();
    assert PlainField(list) && IsLeaf(list) && PlainField(defs) && IsLeaf(defs);
    PrintOne(list);
    PrintOne(defs);
    assert PrintValue(list, INDENT) == "[" + PrintStrings(PrintNumerals(vs)) + "]";
    assert PrintValue(defs, INDENT) == "[" + ("\"" + dn + "\"") + "]" by {
      assert PrintStrings([dn]) == "\"" + dn + "\"";
    }
    hide *;
    OneLeaf(list);
    OneLeaf(defs);
    VersionsPrinted(vs);
    LeavesConcat([defs], [list]);
    PrintConcat([defs], [list], INDENT);
    ListLine("versions", VersionList(vs));
    ListLine("defaults", "\"" + dn + "\"");
    DeclPrinted(Decl("aidl_interface", n, [defs] + [list]), "\n    defaults: [" + ("\"" + dn + "\"") + "],"
                + ("\n    versions: [" + VersionList(vs) + "],"));
  }

  lemma DefaultsParts(dn: string, frozen: Option<bool>, unstable: Option<bool>, available: Option<bool>, vintf: bool)
    ensures var d := Decl("aidl_interface_defaults", dn, FlagFields(frozen, unstable, available, vintf));
            && Leaves(d.others)
            && PrintBlock(ToBlock(d)) ==
               DeclText("aidl_interface_defaults", dn, FlagLines(frozen, unstable, available, vintf))
  {
    hide *;
    FlagsPrinted(frozen, unstable, available, vintf);
    FlagsAreLeaves(frozen, unstable, available, vintf);
    DeclPrinted(Decl("aidl_interface_defaults", dn, FlagFields(frozen, unstable, available, vintf)),
                FlagLines(frozen, unstable, available, vintf));
  }

  /** The same decision when the flags stand in a defaults block the interface lists. */
  lemma InterfaceWithDefaultsDecided(n: string, dn: string, vs: seq<nat>, frozen: Option<bool>, unstable: Option<bool>,
                                     available: Option<bool>, vintf: bool, v: nat, action: Action)
    requires PlainString(n) && PlainString(dn) && dn != ""
    requires var text := DeclText("aidl_interface", n, "\n    defaults: [" + ("\"" + dn + "\"") + "],"
                                  + ("\n    versions: [" + VersionList(vs) + "],"))
                         + DeclText("aidl_interface_defaults", dn, FlagLines(frozen, unstable, available, vintf));
             Justified(Candidate(v, ExtractedBlock(text, n)), action)
    ensures action == if Expected(vs, frozen, unstable, available, vintf, v) then Drop else Keep
  {
    hide *;
    var flags := FlagFields(frozen, unstable, available, vintf);
    var d := Decl("aidl_interface", n, [Strs("defaults", [dn])] + [Strs("versions", PrintNumerals(vs))]);
    var e := Decl("aidl_interface_defaults", dn, flags);
    WithDefaultsParts(n, dn, vs);
    DefaultsParts(dn, frozen, unstable, available, vintf);
    TwoBlocks(ToBlock(d), ToBlock(e));
    KindsArePlain();
    LeafDecl(d.kind, n, d.others);
    LeafDecl(e.kind, dn, e.others);
    TwoRead(d, e, dn, flags, PrintNumerals(vs));
    forall key, kind | key != "name" && key != "defaults"
      ensures First(AllFields([d] + Chosen([Some(Place(1, e))])), key, kind) ==
              if key == "versions" && kind == Bracket then Some(Strs("versions", PrintNumerals(vs)))
              else First(flags, key, kind)
    {
      FirstOfTwo(d, e, n, dn, PrintNumerals(vs), flags, key, kind);
    }
    FactKeysAreOther();
    FlagsRead(frozen, unstable, available, vintf, "versions_with_info", Bracket);
    FlagsAreLeaves(frozen, unstable, available, vintf);
    TwoAreTyped(d, e, n, dn, PrintNumerals(vs), flags);
    MeaningIs(AllFields([d] + Chosen([Some(Place(1, e))])), vs, frozen, unstable, available, vintf);
    ListedFirst(n, dn, PrintNumerals(vs));
    BothRead(d, e);
    ActionIs([ToBlock(d), ToBlock(e)], Place(0, d), [Some(Place(1, e))],
             vs, frozen, unstable, available, vintf, v, action);
  }

  lemma TwoChosen(d: Decl, e: Decl)
    ensures AllFields([d] + Chosen([Some(Place(1, e))])) == Flatten(FieldsOf(d)) + Flatten(FieldsOf(e))
  {
    hide Flatten, FieldsOf;
    var at := [Some(Place(1, e))];
    assert at[1..] == [] && Chosen(at[1..]) == [];
    assert Chosen(at) == [e] + [] == [e];
    assert [d] + Chosen(at) == [d, e] && [d, e][1..] == [e] && [e][1..] == [];
    assert AllFields([e]) == Flatten(FieldsOf(e)) + [];
  }

  lemma FirstOfTwo(d: Decl, e: Decl, n: string, dn: string, values: seq<string>, flags: seq<Field>,
                   key: string, kind: ValueKind)
    requires Flatten(FieldsOf(d)) == [Str("name", n)] + ([Strs("defaults", [dn])] + [Strs("versions", values)])
    requires Flatten(FieldsOf(e)) == [Str("name", dn)] + flags && key != "name"
    ensures First(AllFields([d] + Chosen([Some(Place(1, e))])), key, kind) ==
            if key == "defaults" && kind == Bracket then Some(Strs("defaults", [dn]))
            else if key == "versions" && kind == Bracket then Some(Strs("versions", values))
            else First(flags, key, kind)
  {
    hide *;
    var defs, list := Strs("defaults", [dn]), Strs("versions", values);
    TwoChosen(d, e);
    BehindName(n, [defs] + [list], key, kind);
    BehindList(defs, [list], key, kind);
    BehindList(list, [], key, kind);
    NothingFirst(key, kind);
    assert [list] + [] == [list];
    BehindName(dn, flags, key, kind);
    FirstOfConcat([Str("name", n)] + ([defs] + [list]), [Str("name", dn)] + flags, key, kind);
  }

  lemma ListedFirst(n: string, dn: string, values: seq<string>)
    ensures First([Str("name", n)] + ([Strs("defaults", [dn])] + [Strs("versions", values)]), "defaults", Bracket) ==
            Some(Strs("defaults", [dn]))
  {
    hide *;
    BehindName(n, [Strs("defaults", [dn])] + [Strs("versions", values)], "defaults", Bracket);
    BehindList(Strs("defaults", [dn]), [Strs("versions", values)], "defaults", Bracket);
  }

  lemma NothingFirst(key: string, kind: ValueKind)
    ensures First([], key, kind) == None
  {
  }

  lemma TwoAreTyped(d: Decl, e: Decl, n: string, dn: string, values: seq<string>, flags: seq<Field>)
    requires Flatten(FieldsOf(d)) == [Str("name", n)] + ([Strs("defaults", [dn])] + [Strs("versions", values)])
    requires Flatten(FieldsOf(e)) == [Str("name", dn)] + flags
    requires Leaves(flags) && forall i :: 0 <= i < |flags| ==> !flags[i].Strs?
    ensures Typed(AllFields([d] + Chosen([Some(Place(1, e))])))
  {
    TwoChosen(d, e);
    hide PlainField, Flatten, FieldsOf, AllFields, Chosen;
    var a, b := Flatten(FieldsOf(d)), Flatten(FieldsOf(e));
    assert Typed(a);
    forall i | 0 <= i < |b|
      ensures b[i].name == "versions_with_info" ==> !b[i].Strs?
      ensures b[i].name == "versions" ==> !b[i].Infos?
    {
      if i >= 1 {
        assert b[i] == flags[i - 1] && IsLeaf(flags[i - 1]);
      }
    }
    TypedConcat(a, b);
  }

  lemma TwoRead(d: Decl, e: Decl, dn: string, flags: seq<Field>, values: seq<string>)
    requires PlainDecl(d) && PlainDecl(e) && Leaves(d.others) && PlainString(dn) && dn != "" && e.name == dn
    requires !Contains(d.kind, DEFAULTS) && Contains(e.kind, DEFAULTS)
    ensures ResolvesTo([ToBlock(d), ToBlock(e)], dn, Some(Place(1, e)), DEFAULTS, ByQuote)
  {
    LeavesAreApart(d.others, DEFAULTS);
    DefaultsIsWord();
    PlainDeclIsWellFormed(d);
    assert Apart(d, DEFAULTS);
    hide PlainDecl, ToBlock, WellFormed, Unambiguous, PlainString, IsKey, Leaves, Apart;
    ApartIsUnambiguous(d, dn, DEFAULTS);
  }

  lemma BothRead(d: Decl, e: Decl)
    requires PlainDecl(d) && Contains(d.kind, INTERFACE)
    requires First(Flatten(FieldsOf(d)), "defaults", Bracket) == Some(Strs("defaults", [e.name]))
    requires ResolvesTo([ToBlock(d), ToBlock(e)], e.name, Some(Place(1, e)), DEFAULTS, ByQuote)
    requires Typed(AllFields([d] + Chosen([Some(Place(1, e))])))
    ensures Reads([ToBlock(d), ToBlock(e)], Place(0, d), [Some(Place(1, e))])
  {
    hide PlainDecl, Contains, First, Flatten, FieldsOf, ToBlock, AllFields, Chosen, Typed, Clear, ResolvesTo;
  }

  /** A declaration of a kind that does not contain aidl_interface is no interface of that name. */
  lemma OtherKindIsNotFound(kind: string, n: string, lines: string, fs: seq<Field>)
    requires PlainKind(kind) && !Contains(kind, "aidl_interface") && PlainString(n)
    requires Leaves(fs) && PrintFields(fs, INDENT) == lines
    ensures ExtractedBlock(DeclText(kind, n, lines), n) == None
  {
    var d := Decl(kind, n, fs);
    InterfaceIsWord();
    hide *;
    LeafDecl(kind, n, fs);
    DeclPrinted(d, lines);
    OneBlock(ToBlock(d));
    OtherIsClear(d, n, INTERFACE);
    DeclNotFound([ToBlock(d)], n, INTERFACE);
    NothingExtracted(PrintFile([ToBlock(d)]), n);
  }

  /** Nor is one of a kind that does not contain aidl_interface_defaults inlined as defaults. */
  lemma OtherDefaultsAreSkipped(kind: string, dn: string, lines: string, fs: seq<Field>, block: string)
    requires PlainKind(kind) && !Contains(kind, "aidl_interface_defaults") && PlainString(dn)
    requires Leaves(fs) && PrintFields(fs, INDENT) == lines
    ensures Inlined(DeclText(kind, dn, lines), block, [dn]) == block
  {
    var d := Decl(kind, dn, fs);
    InterfaceIsWord();
    hide *;
    LeafDecl(kind, dn, fs);
    DeclPrinted(d, lines);
    OneBlock(ToBlock(d));
    OtherIsClear(d, dn, DEFAULTS);
    DeclNotFound([ToBlock(d)], dn, DEFAULTS);
    NothingInlined(PrintFile([ToBlock(d)]), block, dn);
  }

  lemma NothingInlined(text: string, block: string, dn: string)
    requires NamedBlock(text, dn, DEFAULTS) == None
    ensures Inlined(text, block, [dn]) == block
  {
    hide NamedBlock;
    assert [dn][1..] == [] && Inlined(text, block, []) == block;
  }

  lemma InterfaceIsWord()
    ensures IsKey(INTERFACE) && INTERFACE == "aidl_interface"
    ensures IsKey(DEFAULTS) && DEFAULTS == "aidl_interface_defaults"
  {
  }

  lemma OtherIsClear(d: Decl, n: string, filter: string)
    requires PlainDecl(d) && Leaves(d.others) && !Contains(d.kind, filter) && IsKey(filter)
    ensures ClearBefore([ToBlock(d)], 1, n, filter, ByQuote)
  {
    LeavesAreApart(d.others, filter);
    PlainDeclIsWellFormed(d);
    assert Apart(d, filter);
    hide PlainDecl, ToBlock, WellFormed, Unambiguous, IsKey, Leaves, Apart;
    ApartIsUnambiguous(d, n, filter);
  }

  lemma NothingExtracted(text: string, n: string)
    requires NamedBlock(text, n, INTERFACE) == None
    ensures ExtractedBlock(text, n) == None
  {
  }

  // ---- Versions as objects ----

  /** One object for every version, without imports. */
  function ObjectLines(vs: seq<nat>): string {
    if vs == [] then ""
    else
      "\n        {" + ("\n            version: " + ("\"" + Dec(vs[0]) + "\"") + ",") + "\n            imports: [],"
      + "\n        }," + ObjectLines(vs[1..])
  }

  function ObjectsOf(vs: seq<nat>): (infos: seq<Info>)
    ensures |infos| == |vs|
  {
    if vs == [] then [] else [Info(vs[0], [])] + ObjectsOf(vs[1..])
  }

  lemma ObjectPrinted(v: nat)
    ensures PrintInfo(Info(v, []), "        ") ==
            "\n        {" + ("\n            version: " + ("\"" + Dec(v) + "\"") + ",") + "\n            imports: [],"
            + "\n        },"
  {
    hide *;
    InfoIs(v, "        ");
    Indents();
    VersionLine(Dec(v));
    ImportsLine();
  }

  lemma InfoIs(v: nat, indent: string)
    ensures PrintInfo(Info(v, []), indent) ==
            ("\n" + indent + "{") + Line(indent + "    ", "version", Quoted(Dec(v)))
            + Line(indent + "    ", "imports", "[" + PrintStrings([]) + "]") + ("\n" + indent + "},")
  {
    hide Line, Quoted, Dec, PrintStrings;
    var head := "\n" + indent + "{" + Line(indent + "    ", "version", Quoted(Dec(v)))
                + Line(indent + "    ", "imports", "[" + PrintStrings([]) + "]");
    assert head + "\n" + indent + "}," == head + ("\n" + indent + "},");
  }

  lemma Indents()
    ensures "        " + "    " == "            "
    ensures "\n" + "        " + "{" == "\n        {" && "\n" + "        " + "}," == "\n        },"
  {
  }

  lemma ImportsLine()
    ensures Line("            ", "imports", "[" + PrintStrings([]) + "]") == "\n            imports: [],"
  {
    assert "[" + PrintStrings([]) + "]" == "[]";
    hide PrintStrings;
    assert "\n" + "            " + "imports" + ": " == "\n            imports: ";
  }

  lemma VersionLine(digits: string)
    ensures Line("            ", "version", Quoted(digits)) ==
            "\n            version: " + ("\"" + digits + "\"") + ","
  {
    assert "\n" + "            " + "version" + ": " == "\n            version: ";
    assert Quoted(digits) == "\"" + digits + "\"";
  }

  lemma {:induction false} ObjectsPrinted(vs: seq<nat>)
    ensures PrintInfos(ObjectsOf(vs), "        ") == ObjectLines(vs)
    ensures PlainInfos(ObjectsOf(vs)) && Versions(ObjectsOf(vs)) == vs
  {
    hide PrintInfo, Dec;
    if vs != [] {
      ObjectPrinted(vs[0]);
      ObjectsPrinted(vs[1..]);
      assert ObjectsOf(vs)[1..] == ObjectsOf(vs[1..]) && ObjectsOf(vs)[0] == Info(vs[0], []);
    }
  }

  lemma ObjectsLine(vs: seq<nat>)
    ensures PrintFields([Infos("versions_with_info", ObjectsOf(vs))], INDENT) ==
            "\n    versions_with_info: [" + ObjectLines(vs) + "\n    ],"
  {
    var f := Infos("versions_with_info", ObjectsOf(vs));
    ObjectsValue(vs);
    PrintOne(f);
    assert f.name == "versions_with_info";
    hide *;
    ObjectsHead(ObjectLines(vs));
  }

  lemma ObjectsValue(vs: seq<nat>)
    ensures PrintValue(Infos("versions_with_info", ObjectsOf(vs)), INDENT) == "[" + ObjectLines(vs) + "\n    ]"
  {
    ObjectsPrinted(vs);
    hide ObjectsOf, ObjectLines, PrintInfos;
    assert INDENT + "    " == "        ";
    assert "[" + ObjectLines(vs) + "\n" + INDENT + "]" == "[" + ObjectLines(vs) + ("\n" + INDENT + "]");
    assert "\n" + INDENT + "]" == "\n    ]";
  }

  lemma ObjectsHead(lines: string)
    ensures "\n    " + "versions_with_info" + ": " + ("[" + lines + "\n    ]") + "," ==
            "\n    versions_with_info: [" + lines + "\n    ],"
  {
    var head, tail := "\n    " + "versions_with_info" + ": ", "\n    ]";
    HeadIs();
    assert head + ("[" + lines + tail) + "," == (head + "[") + lines + (tail + ",");
  }

  lemma HeadIs()
    ensures "\n    " + "versions_with_info" + ": " + "[" == "\n    versions_with_info: ["
    ensures "\n    ]" + "," == "\n    ],"
  {
  }

  lemma ObjectDecl(n: string, vs: seq<nat>, flags: seq<Field>)
    requires PlainString(n) && Leaves(flags)
    ensures var list := Infos("versions_with_info", ObjectsOf(vs));
            var d := Decl("aidl_interface", n, [list] + flags);
            && PlainDecl(d)
            && Flatten(FieldsOf(d)) == [Str("name", n)] + ([list] + FlattenInfos(ObjectsOf(vs)) + flags)
  {
    var list, own := Infos("versions_with_info", ObjectsOf(vs)), Str("name", n);
    KindsArePlain();
    ObjectsPrinted(vs);
    KeysAreWords();
    assert PlainField(list) && PlainField(own) && IsLeaf(own);
    FlattenLeaf(own);
    OneFlattened(list);
    LeavesAreFlat(flags);
    hide PlainField, PlainKind, PlainString, FlattenInfos;
    FlattenConcat([list], flags);
    FlattenConcat([own], [list] + flags);
    assert ([list] + flags)[1..] == flags;
  }

  lemma ObjectFields(n: string, vs: seq<nat>, flags: seq<Field>, key: string, kind: ValueKind)
    requires key != "name" && key != "version" && key != "imports"
    ensures var list := Infos("versions_with_info", ObjectsOf(vs));
            First([Str("name", n)] + ([list] + FlattenInfos(ObjectsOf(vs)) + flags), key, kind) ==
            if key == "versions_with_info" && kind == Bracket then Some(list) else First(flags, key, kind)
  {
    var list := Infos("versions_with_info", ObjectsOf(vs));
    assert First([list], key, kind) == if key == "versions_with_info" && kind == Bracket then Some(list) else None by {
      assert [list][1..] == [];
    }
    hide *;
    BehindName(n, [list] + FlattenInfos(ObjectsOf(vs)) + flags, key, kind);
    InnerHasOnly(ObjectsOf(vs), key, kind);
    FirstOfConcat([list], FlattenInfos(ObjectsOf(vs)), key, kind);
    FirstOfConcat([list] + FlattenInfos(ObjectsOf(vs)), flags, key, kind);
  }

  lemma ObjectsMean(flat: seq<Field>, vs: seq<nat>, frozen: Option<bool>, unstable: Option<bool>,
                    available: Option<bool>, vintf: bool)
    requires First(flat, "versions_with_info", Bracket) == Some(Infos("versions_with_info", ObjectsOf(vs)))
    requires forall key, kind :: IsFactKey(key) && kind != Bracket ==>
               First(flat, key, kind) == First(FlagFields(frozen, unstable, available, vintf), key, kind)
    ensures Meaning(flat) == Facts(SortedSet(vs), frozen, unstable == Some(true), available, vintf)
  {
    FlagsMean(flat, frozen, unstable, available, vintf);
    ObjectsPrinted(vs);
    hide FlagFields, FlagOf, PrintInfos, PlainInfos, ObjectLines, SortedSet, First, Versions, ObjectsOf, IsFactKey;
  }

  lemma ObjectsAreTyped(n: string, vs: seq<nat>, flags: seq<Field>)
    requires Leaves(flags) && forall i :: 0 <= i < |flags| ==> !flags[i].Strs?
    ensures Typed([Str("name", n)]
                  + ([Infos("versions_with_info", ObjectsOf(vs))] + FlattenInfos(ObjectsOf(vs)) + flags))
  {
    var list := [Infos("versions_with_info", ObjectsOf(vs))];
    InfosAreTyped(ObjectsOf(vs));
    assert Typed([Str("name", n)]) && Typed(list);
    assert Typed(flags) by {
      forall i | 0 <= i < |flags|
        ensures flags[i].name == "versions_with_info" ==> !flags[i].Strs?
        ensures flags[i].name == "versions" ==> !flags[i].Infos?
      {
        assert IsLeaf(flags[i]);
      }
    }
    hide Typed, FlattenInfos, ObjectsOf;
    TypedConcat(list, FlattenInfos(ObjectsOf(vs)));
    TypedConcat(list + FlattenInfos(ObjectsOf(vs)), flags);
    TypedConcat([Str("name", n)], list + FlattenInfos(ObjectsOf(vs)) + flags);
  }

  /** The same decision when the versions are listed as objects. */
  lemma InterfaceWithObjectsDecided(n: string, vs: seq<nat>, frozen: Option<bool>, unstable: Option<bool>,
                                    available: Option<bool>, vintf: bool, v: nat, action: Action)
    requires PlainString(n)
    requires var text := DeclText("aidl_interface", n, "\n    versions_with_info: [" + ObjectLines(vs) + "\n    ],"
                                  + FlagLines(frozen, unstable, available, vintf));
             Justified(Candidate(v, ExtractedBlock(text, n)), action)
    ensures action == if Expected(vs, frozen, unstable, available, vintf, v) then Drop else Keep
  {
    hide *;
    var flags := FlagFields(frozen, unstable, available, vintf);
    var list := Infos("versions_with_info", ObjectsOf(vs));
    var d := Decl("aidl_interface", n, [list] + flags);
    FlagsAreLeaves(frozen, unstable, available, vintf);
    FlagsPrinted(frozen, unstable, available, vintf);
    ObjectsLine(vs);
    PrintConcat([list], flags, INDENT);
    DeclPrinted(d, "\n    versions_with_info: [" + ObjectLines(vs) + "\n    ],"
                + FlagLines(frozen, unstable, available, vintf));
    OneBlock(ToBlock(d));
    ObjectDecl(n, vs, flags);
    KindsArePlain();
    NothingChosen(d);
    FactKeysAreOther();
    forall key, kind | IsFactKey(key) || key == "versions_with_info" || key == "defaults"
      ensures First(AllFields([d] + Chosen([])), key, kind) ==
              if key == "versions_with_info" && kind == Bracket then Some(list) else First(flags, key, kind)
    {
      ObjectFields(n, vs, flags, key, kind);
    }
    FlagsRead(frozen, unstable, available, vintf, "defaults", Bracket);
    ObjectsAreTyped(n, vs, flags);
    ObjectsMean(AllFields([d] + Chosen([])), vs, frozen, unstable, available, vintf);
    AloneReads(d);
    ActionIs([ToBlock(d)], Place(0, d), [], vs, frozen, unstable, available, vintf, v, action);
  }

  // ---- Freezing ----

  lemma {:induction false} FrozenConcat(a: seq<Field>, b: seq<Field>, version: nat)
    ensures FrozenFields(a + b, version, []) == FrozenFields(a, version, []) + FrozenFields(b, version, [])
  {
    hide FrozenField;
    if a == [] {
      assert a + b == b;
    } else {
      assert (a + b)[1..] == a[1..] + b;
      FrozenConcat(a[1..], b, version);
    }
  }

  lemma FrozenOne(f: Field, version: nat)
    ensures FrozenFields([f], version, []) == [FrozenField(f, version, [])]
  {
    hide FrozenField;
    assert FrozenFields([f][1..], version, []) == [];
  }

  lemma FrozenPart(key: string, on: Option<bool>, version: nat)
    ensures FrozenFields(FlagPart(key, on), version, []) ==
            FlagPart(key, if key == "frozen" && on.Some? then Some(true) else on)
  {
    if on.Some? {
      FrozenOne(Flag(key, on.value), version);
    }
  }

  lemma FrozenVintf(vintf: bool, version: nat)
    ensures var s := if vintf then [Str("stability", "vintf")] else []; FrozenFields(s, version, []) == s
  {
    if vintf {
      FrozenOne(Str("stability", "vintf"), version);
    }
  }

  lemma FrozenFlags(frozen: Option<bool>, unstable: Option<bool>, available: Option<bool>, vintf: bool, version: nat)
    ensures FrozenFields(FlagFields(frozen, unstable, available, vintf), version, []) ==
            FlagFields(if frozen.Some? then Some(true) else None, unstable, available, vintf)
  {
    FrozenPart("frozen", frozen, version);
    FrozenPart("unstable", unstable, version);
    FrozenPart("vendor_available", available, version);
    FrozenVintf(vintf, version);
    hide FrozenFields, FlagPart;
    var s := if vintf then [Str("stability", "vintf")] else [];
    var c, b, a := FlagPart("vendor_available", available), FlagPart("unstable", unstable), FlagPart("frozen", frozen);
    FrozenConcat(c, s, version);
    FrozenConcat(b, c + s, version);
    FrozenConcat(a, b + (c + s), version);
  }

  lemma FrozenList(vs: seq<nat>, version: nat)
    ensures FrozenFields([Strs("versions", PrintNumerals(vs))], version, []) ==
            [Strs("versions", PrintNumerals(vs + [version]))]
  {
    FrozenOne(Strs("versions", PrintNumerals(vs)), version);
    assert PrintNumerals(vs + [version]) == PrintNumerals(vs) + [Dec(version)];
  }

  lemma FlagsSayFrozen(list: Field, frozen: Option<bool>, unstable: Option<bool>, available: Option<bool>, vintf: bool)
    requires !list.Flag?
    ensures SaysFrozen([list] + FlagFields(frozen, unstable, available, vintf)) <==> frozen.Some?
  {
    var fs := [list] + FlagFields(frozen, unstable, available, vintf);
    if frozen.Some? {
      assert fs[1] == Flag("frozen", frozen.value);
    }
  }

  /** The declaration after the freeze: true where the flag stands, or in front, and the version at
      the end of the list. */
  lemma FrozenDeclIs(n: string, vs: seq<nat>, frozen: Option<bool>, unstable: Option<bool>, available: Option<bool>,
                     vintf: bool, version: nat)
    ensures var d := Decl("aidl_interface", n, [Strs("versions", PrintNumerals(vs))]
                          + FlagFields(frozen, unstable, available, vintf));
            FrozenDecl(d, version, []) ==
            Decl("aidl_interface", n,
                 (if frozen.None? then [Flag("frozen", true)] else [])
                 + ([Strs("versions", PrintNumerals(vs + [version]))]
                    + FlagFields(if frozen.Some? then Some(true) else None, unstable, available, vintf)))
  {
    hide FrozenFields, SaysFrozen, FlagFields, PrintNumerals;
    var list := Strs("versions", PrintNumerals(vs));
    FrozenConcat([list], FlagFields(frozen, unstable, available, vintf), version);
    FrozenList(vs, version);
    FrozenFlags(frozen, unstable, available, vintf, version);
    FlagsSayFrozen(list, frozen, unstable, available, vintf);
  }

  lemma FrozenPrinted(n: string, vs: seq<nat>, frozen: Option<bool>, unstable: Option<bool>, available: Option<bool>,
                      vintf: bool, version: nat)
    ensures var d := Decl("aidl_interface", n, [Strs("versions", PrintNumerals(vs))]
                          + FlagFields(frozen, unstable, available, vintf));
            PrintBlock(ToBlock(FrozenDecl(d, version, []))) ==
            DeclText("aidl_interface", n, (if frozen.None? then "\n    frozen: true," else "")
                     + ("\n    versions: [" + VersionList(vs + [version]) + "],"
                        + FlagLines(if frozen.Some? then Some(true) else None, unstable, available, vintf)))
  {
    hide *;
    var on := if frozen.Some? then Some(true) else None;
    var added := if frozen.None? then [Flag("frozen", true)] else [];
    var list := Strs("versions", PrintNumerals(vs + [version]));
    FrozenDeclIs(n, vs, frozen, unstable, available, vintf, version);
    ListPrinted(vs + [version]);
    FlagsPrinted(on, unstable, available, vintf);
    AddedPrinted(frozen.None?);
    PrintConcat([list], FlagFields(on, unstable, available, vintf), INDENT);
    PrintConcat(added, [list] + FlagFields(on, unstable, available, vintf), INDENT);
    DeclPrinted(Decl("aidl_interface", n, added + ([list] + FlagFields(on, unstable, available, vintf))),
                (if frozen.None? then "\n    frozen: true," else "")
                + ("\n    versions: [" + VersionList(vs + [version]) + "],"
                   + FlagLines(on, unstable, available, vintf)));
  }

  lemma AddedPrinted(added: bool)
    ensures PrintFields(if added then [Flag("frozen", true)] else [], INDENT) ==
            if added then "\n    frozen: true," else ""
  {
    if added {
      PrintOne(Flag("frozen", true));
    }
  }

  lemma ListPrinted(vs: seq<nat>)
    ensures PrintFields([Strs("versions", PrintNumerals(vs))], INDENT) == "\n    versions: [" + VersionList(vs) + "],"
  {
    var list := Strs("versions", PrintNumerals(vs));
    PrintOne(list);
    assert PrintValue(list, INDENT) == "[" + PrintStrings(PrintNumerals(vs)) + "]" && list.name == "versions";
    hide *;
    VersionsPrinted(vs);
    ListLine("versions", VersionList(vs));
  }

  lemma CanBeFrozen(d: Decl, vs: seq<nat>, flags: seq<Field>)
    requires d.others == [Strs("versions", PrintNumerals(vs))] + flags && Leaves(d.others)
    requires First(flags, "versions_with_info", Bracket) == None
    ensures Shallow(d.others) && ListsVersions(d, Chosen([]))
  {
    LeavesAreFlat(d.others);
    BehindList(Strs("versions", PrintNumerals(vs)), flags, "versions_with_info", Bracket);
    BehindList(Strs("versions", PrintNumerals(vs)), flags, "versions", Bracket);
    assert forall i :: 0 <= i < |d.others| ==> IsLeaf(d.others[i]);
    assert AllFields(Chosen([])) == [];
    hide PlainField, First, Flatten;
    NothingFirst("versions_with_info", Bracket);
  }

  /** Freezing as it changes the text of an interface: no decision changes. */
  lemma FreezingOnText(n: string, vs: seq<nat>, frozen: Option<bool>, unstable: Option<bool>, available: Option<bool>,
                       vintf: bool, version: nat, v: nat)
    requires PlainString(n) && frozen != Some(true) && unstable != Some(true)
    requires version > 0 && version - 1 in vs && forall w :: w in vs ==> w < version
    ensures var text := DeclText("aidl_interface", n, "\n    versions: [" + VersionList(vs) + "],"
                                 + FlagLines(frozen, unstable, available, vintf));
            var after := DeclText("aidl_interface", n, (if frozen.None? then "\n    frozen: true," else "")
                                  + ("\n    versions: [" + VersionList(vs + [version]) + "],"
                                     + FlagLines(if frozen.Some? then Some(true) else None, unstable, available,
                                                 vintf)));
            DroppedFrom(text, n, v) <==> DroppedFrom(after, n, v)
  {
    hide *;
    var flags := FlagFields(frozen, unstable, available, vintf);
    var d := Decl("aidl_interface", n, [Strs("versions", PrintNumerals(vs))] + flags);
    InterfaceParts(n, vs, frozen, unstable, available, vintf);
    InterfaceReads(n, vs, frozen, unstable, available, vintf, d);
    FlagsRead(frozen, unstable, available, vintf, "versions_with_info", Bracket);
    CanBeFrozen(d, vs, flags);
    InterfaceIsApart(d);
    NextIsCurrent(Facts(SortedSet(vs), frozen, unstable == Some(true), available, vintf), vs, version);
    NoImports();
    FreezingTheFileKeepsDecisions([ToBlock(d)], Place(0, d), [], version, [], v);
    FrozenPrinted(n, vs, frozen, unstable, available, vintf, version);
    OneBlock(ToBlock(d));
    OneBlock(ToBlock(FrozenDecl(d, version, [])));
    assert [ToBlock(d)][0 := ToBlock(FrozenDecl(d, version, []))] == [ToBlock(FrozenDecl(d, version, []))];
  }

  lemma InterfaceIsApart(d: Decl)
    requires d.kind == "aidl_interface" && Leaves(d.others)
    ensures Apart(d, DEFAULTS)
  {
    KindsArePlain();
    LeavesAreApart(d.others, DEFAULTS);
    hide Contains, Leaves;
  }

  lemma NextIsCurrent(f: Facts, vs: seq<nat>, version: nat)
    requires f.versions == SortedSet(vs) && f.frozen != Some(true) && !f.unstable
    requires version > 0 && version - 1 in vs && forall w :: w in vs ==> w < version
    ensures Current(f) == Some(version)
  {
    var s := SortedSet(vs);
    assert forall x :: x in s <==> x in vs;
    CurrentIsNext(f, version);
    hide SortedSet, Current;
  }

  lemma NoImports()
    ensures PlainStrings([])
  {
  }
}
