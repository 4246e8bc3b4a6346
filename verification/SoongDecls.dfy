/** Soong declarations as data and as printed blocks, and which declaration a lookup ends in. */
module SoongDecls {
  import opened Text
  import opened Brackets
  import opened SoongFiles
  import opened SoongScanner
  import opened SoongFields
  import opened SoongPrinter
  import opened CcFiles

  // ---- Printed declarations ----

  /** A declaration: its kind, its name, printed first, and its other fields. */
  datatype Decl = Decl(kind: string, name: string, others: seq<Field>)

  const INDENT := "    "

  function FieldsOf(d: Decl): seq<Field> {
    [Str("name", d.name)] + d.others
  }

  function ToBlock(d: Decl): Block {
    Block(d.kind, PrintFields(FieldsOf(d), INDENT) + "\n")
  }

  predicate PlainDecl(d: Decl) {
    PlainKind(d.kind) && PlainString(d.name) && PlainFields(d.others)
  }

  // ---- Braces pair up in printed fields ----

  lemma {:induction false} StringsAreBraceFree(values: seq<string>)
    requires PlainStrings(values)
    ensures BraceFree(PrintStrings(values))
  {
    if |values| > 0 {
      assert PlainString(values[0]);
      hide Quiet;
      StringsAreBraceFree(values[1..]);
    }
  }

  lemma InfoBraces(info: Info, indent: string)
    requires AllSpaces(indent) && PlainStrings(info.imports)
    ensures Nested(PrintInfo(info, indent), '{', '}')
  {
    hide *;
    var inner := InfoInner(info, indent);
    StringsAreBraceFree(info.imports);
    InfoInnerIsFlat(info, indent);
    BlankEndIsFlat(indent);
    BraceFreeIsNested(inner);
    BraceFreeIsNested("\n" + indent);
    BraceFreeIsNested(",");
    WrapIsNested(inner, '{', '}');
    ConcatIsNested("\n" + indent, ['{'] + inner + ['}'], '{', '}');
    ConcatIsNested("\n" + indent + (['{'] + inner + ['}']), ",", '{', '}');
    InfoIsWrapped(info, indent);
  }

  function InfoInner(info: Info, indent: string): string {
    Line(indent + "    ", "version", Quoted(Dec(info.version)))
    + Line(indent + "    ", "imports", "[" + PrintStrings(info.imports) + "]") + "\n" + indent
  }

  lemma InfoIsWrapped(info: Info, indent: string)
    ensures PrintInfo(info, indent) == "\n" + indent + (['{'] + InfoInner(info, indent) + ['}']) + ","
  {
    hide Line, PrintStrings, Dec, Quoted;
  }

  lemma InfoInnerIsFlat(info: Info, indent: string)
    requires AllSpaces(indent) && BraceFree(PrintStrings(info.imports))
    ensures BraceFree(InfoInner(info, indent))
  {
    hide PrintStrings;
  }

  lemma {:induction false} InfosBraces(infos: seq<Info>, indent: string)
    requires AllSpaces(indent) && PlainInfos(infos)
    ensures Nested(PrintInfos(infos, indent), '{', '}')
  {
    hide PrintInfo, AllSpaces, Nested, PlainStrings;
    if infos == [] {
      FlatIsNested("", '{', '}');
    } else {
      InfoBraces(infos[0], indent);
      InfosBraces(infos[1..], indent);
      ConcatIsNested(PrintInfo(infos[0], indent), PrintInfos(infos[1..], indent), '{', '}');
    }
  }

  lemma LeafBraces(f: Field, indent: string)
    requires IsLeaf(f) && PlainField(f)
    ensures BraceFree(PrintValue(f, indent))
  {
    if f.Strs? {
      StringsAreBraceFree(f.values);
    }
  }

  lemma {:induction false} ValueBraces(f: Field, indent: string)
    requires AllSpaces(indent) && PlainField(f)
    ensures Nested(PrintValue(f, indent), '{', '}')
    decreases f, 0
  {
    hide *;
    NestedFields(f, indent);
    BlankEndIsFlat(indent);
    if IsLeaf(f) {
      LeafBraces(f, indent);
      BraceFreeIsNested(PrintValue(f, indent));
    } else if f.Infos? {
      InfosBraces(f.infos, indent + "    ");
      InfosValueBraces(f, indent);
    } else {
      FieldsBraces(f.fields, indent + "    ");
      GroupValueBraces(f, indent);
    }
  }

  lemma BraceFreeIsNested(s: string)
    requires BraceFree(s)
    ensures Nested(s, '{', '}')
  {
    hide Nested;
    FlatIsNested(s, '{', '}');
  }

  lemma BlankEndIsFlat(indent: string)
    requires AllSpaces(indent)
    ensures BraceFree("\n" + indent) && BraceFree("\n" + indent + "]") && BraceFree("[") && BraceFree(",")
  {
  }

  lemma InfosValueBraces(f: Field, indent: string)
    requires f.Infos? && Nested(PrintInfos(f.infos, indent + "    "), '{', '}')
    requires BraceFree("\n" + indent + "]") && BraceFree("[")
    ensures Nested(PrintValue(f, indent), '{', '}')
  {
    hide Nested, BraceFree, PrintInfos;
    var p := PrintInfos(f.infos, indent + "    ");
    BraceFreeIsNested("[");
    BraceFreeIsNested("\n" + indent + "]");
    ConcatIsNested("[", p, '{', '}');
    ConcatIsNested("[" + p, "\n" + indent + "]", '{', '}');
    assert PrintValue(f, indent) == "[" + p + ("\n" + indent + "]");
  }

  lemma GroupValueBraces(f: Field, indent: string)
    requires f.Group? && Nested(PrintFields(f.fields, indent + "    "), '{', '}') && BraceFree("\n" + indent)
    ensures Nested(PrintValue(f, indent), '{', '}')
  {
    hide Nested, BraceFree, PrintFields;
    var p := PrintFields(f.fields, indent + "    ");
    BraceFreeIsNested("\n" + indent);
    ConcatIsNested(p, "\n" + indent, '{', '}');
    WrapIsNested(p + ("\n" + indent), '{', '}');
    assert PrintValue(f, indent) == ['{'] + (p + ("\n" + indent)) + ['}'];
  }

  lemma LineBraces(indent: string, name: string, value: string)
    requires AllSpaces(indent) && IsKey(name) && Nested(value, '{', '}')
    ensures Nested(Line(indent, name, value), '{', '}')
  {
    var a := "\n" + indent + name + ": ";
    assert BraceFree(a);
    hide Nested, AllSpaces, IsKey;
    FlatIsNested(a, '{', '}');
    FlatIsNested(",", '{', '}');
    ConcatIsNested(a, value, '{', '}');
    ConcatIsNested(a + value, ",", '{', '}');
  }

  lemma {:induction false} FieldsBraces(fs: seq<Field>, indent: string)
    requires AllSpaces(indent) && PlainFields(fs)
    ensures Nested(PrintFields(fs, indent), '{', '}')
    decreases fs, 1
  {
    hide *;
    if fs == [] {
      NothingPrinted(indent);
      NothingIsBraceFree();
      BraceFreeIsNested("");
    } else {
      FirstField(fs, indent);
      NameIsKey(fs[0]);
      ValueBraces(fs[0], indent);
      FieldsBraces(fs[1..], indent);
      LineBraces(indent, fs[0].name, PrintValue(fs[0], indent));
      ConcatIsNested(Line(indent, fs[0].name, PrintValue(fs[0], indent)), PrintFields(fs[1..], indent), '{', '}');
    }
  }

  lemma NothingIsBraceFree()
    ensures BraceFree("")
  {
  }

  lemma NameIsKey(f: Field)
    requires PlainField(f)
    ensures IsKey(f.name)
  {
  }

  lemma PlainDeclIsWellFormed(d: Decl)
    requires PlainDecl(d)
    ensures PlainFields(FieldsOf(d)) && AllSpaces(INDENT)
    ensures WellFormed(ToBlock(d)) && NamedFirst(ToBlock(d), d.name)
  {
    assert FieldsOf(d)[0] == Str("name", d.name) && FieldsOf(d)[1..] == d.others;
    assert PlainField(Str("name", d.name));
    hide Quiet, PlainField, PlainKind;
    var v := PrintValue(Str("name", d.name), INDENT);
    assert v == Quoted(d.name);
    assert NAME_FIELD + Quoted(d.name) + "," == Line(INDENT, "name", Quoted(d.name));
  }

  lemma DeclBraces(d: Decl)
    requires PlainDecl(d)
    ensures Nested(ToBlock(d).body, '{', '}')
  {
    hide *;
    PlainDeclIsWellFormed(d);
    FieldsBraces(FieldsOf(d), INDENT);
    NewlineIsNested();
    ConcatIsNested(PrintFields(FieldsOf(d), INDENT), "\n", '{', '}');
    BodyIs(d);
  }

  lemma BodyIs(d: Decl)
    ensures ToBlock(d).body == PrintFields(FieldsOf(d), INDENT) + "\n" && ToBlock(d).kind == d.kind
  {
    hide PrintFields;
  }

  lemma NewlineIsNested()
    ensures Nested("\n", '{', '}')
  {
    hide Nested;
    BraceFreeIsNested("\n");
  }
  // ---- What stands before the braces of printed fields ----

  /** Every opening brace is declared on a line of s, and not as the filter wants it. */
  ghost predicate Sealed(s: string, filter: string) {
    forall ob :: 0 <= ob < |s| && s[ob] == '{' ==>
      RFindChar(s, '\n', ob) >= 0 && !Contains(Declaration(s, ob), filter)
  }

  lemma BraceFreeIsSealed(s: string, filter: string)
    requires BraceFree(s)
    ensures Sealed(s, filter)
  {
    hide Contains, Declaration;
  }

  lemma SealedConcat(a: string, b: string, filter: string)
    requires Sealed(a, filter) && Sealed(b, filter)
    ensures Sealed(a + b, filter)
  {
    hide Contains, Declaration;
    var s := a + b;
    forall ob | 0 <= ob < |s| && s[ob] == '{'
      ensures RFindChar(s, '\n', ob) >= 0 && !Contains(Declaration(s, ob), filter)
    {
      if ob < |a| {
        DeclarationBefore(a, b, ob);
      } else {
        DeclarationBehind(a, b, ob - |a|);
      }
    }
  }

  lemma DeclarationBefore(a: string, b: string, ob: nat)
    requires ob < |a| && RFindChar(a, '\n', ob) >= 0
    ensures RFindChar(a + b, '\n', ob) >= 0 && Declaration(a + b, ob) == Declaration(a, ob)
  {
    hide Strip;
    var nl := RFindChar(a, '\n', ob);
    assert forall k :: nl <= k < ob ==> (a + b)[k] == a[k];
    assert RFindChar(a + b, '\n', ob) == nl;
    assert (a + b)[nl + 1..ob] == a[nl + 1..ob];
  }

  lemma DeclarationBehind(a: string, b: string, ob: nat)
    requires ob < |b| && RFindChar(b, '\n', ob) >= 0
    ensures RFindChar(a + b, '\n', |a| + ob) >= 0 && Declaration(a + b, |a| + ob) == Declaration(b, ob)
  {
    hide Strip;
    var nl := RFindChar(b, '\n', ob);
    assert forall k :: nl <= k < ob ==> (a + b)[|a| + k] == b[k];
    assert (a + b)[|a| + nl] == '\n' && forall k :: |a| + nl < k < |a| + ob ==> (a + b)[k] == b[k - |a|];
    assert RFindChar(a + b, '\n', |a| + ob) == |a| + nl;
    assert (a + b)[|a| + nl + 1..|a| + ob] == b[nl + 1..ob];
  }

  /** The field is no group named as the filter wants, nor holds one at any depth. */
  predicate FieldApart(f: Field, filter: string)
    decreases f, 0
  {
    f.Group? ==> !Contains(f.name, filter) && FieldsApart(f.fields, filter)
  }

  predicate FieldsApart(fs: seq<Field>, filter: string)
    decreases fs, 1
  {
    fs == [] || (FieldApart(fs[0], filter) && FieldsApart(fs[1..], filter))
  }

  /** Neither the declaration nor a group in it could be taken for one the filter wants. */
  predicate Apart(d: Decl, filter: string) {
    !Contains(d.kind, filter) && FieldsApart(d.others, filter)
  }

  lemma DeclaredOnLine(line: string)
    requires Free(line, '\n') && Free(line, '{')
    ensures var s := "\n" + line + "{";
            && RFindChar(s, '\n', |line| + 1) == 0 && Declaration(s, |line| + 1) == Strip(line)
            && forall k :: 0 <= k < |line| + 1 ==> s[k] != '{'
  {
    hide Strip;
    var s := "\n" + line + "{";
    assert s[0] == '\n' && forall k :: 0 < k < |line| + 1 ==> s[k] == line[k - 1];
    assert s[1..|line| + 1] == line;
  }

  lemma LineIsFlat(indent: string, before: string)
    requires AllSpaces(indent) && Free(before, '{') && Free(before, '\n')
    ensures Free(indent + before, '{') && Free(indent + before, '\n')
  {
  }

  lemma LineIsSealed(line: string, filter: string)
    requires Free(line, '\n') && Free(line, '{') && !Contains(Strip(line), filter)
    ensures Sealed("\n" + line + "{", filter)
  {
    hide Contains, Declaration, Strip;
    DeclaredOnLine(line);
  }

  /** An opened line: the text before its brace is what is declared. */
  lemma OpenLineIsSealed(indent: string, before: string, filter: string)
    requires AllSpaces(indent) && IsKey(filter) && !Contains(before, filter)
    requires BraceFree(before) && Free(before, '\n')
    ensures Sealed("\n" + indent + before + "{", filter)
  {
    LineIsFlat(indent, before);
    hide *;
    if Contains(Strip(indent + before), filter) {
      ContainedInStrip(indent + before, filter);
      WordBehindSpaces(indent, before, filter);
    }
    LineIsSealed(indent + before, filter);
    assert "\n" + indent + before + "{" == "\n" + (indent + before) + "{";
  }

  lemma WordBehindSpaces(indent: string, before: string, filter: string)
    requires AllSpaces(indent) && IsKey(filter) && Contains(indent + before, filter)
    ensures Contains(before, filter)
  {
    var s := indent + before;
    var i := Find(s, filter, 0);
    CharAt(s, filter, i, 0);
    assert i >= |indent|;
    hide IsKey, AllSpaces, Find;
    SliceBehind(indent, before, i - |indent|, i - |indent| + |filter|);
    OccurrenceIsContained(before, filter, i - |indent|);
  }

  lemma SliceBehind(a: string, b: string, i: nat, j: nat)
    requires i <= j <= |b|
    ensures (a + b)[|a| + i..|a| + j] == b[i..j]
  {
  }

  lemma KeyIsNotInWord(name: string, filter: string)
    requires IsKey(filter) && !Contains(name, filter)
    ensures !Contains(name + ": ", filter)
  {
    var s := name + ": ";
    if Contains(s, filter) {
      var i := Find(s, filter, 0);
      CharAt(s, filter, i, |filter| - 1);
      assert i + |filter| <= |name|;
      if i + |filter| <= |name| {
        assert s[i..i + |filter|] == name[i..i + |filter|];
        OccurrenceIsContained(name, filter, i);
      }
    }
  }

  lemma LineOpens(f: Field, indent: string)
    requires f.Group?
    ensures Line(indent, f.name, PrintValue(f, indent)) ==
            "\n" + indent + (f.name + ": ") + "{" + PrintFields(f.fields, indent + "    ") + ("\n" + indent + "},")
  {
    hide PrintFields;
  }

  lemma GroupLineIsSealed(f: Field, indent: string, filter: string)
    requires f.Group? && AllSpaces(indent) && IsKey(f.name) && IsKey(filter) && !Contains(f.name, filter)
    requires Sealed(PrintFields(f.fields, indent + "    "), filter)
    ensures Sealed(Line(indent, f.name, PrintValue(f, indent)), filter)
  {
    hide *;
    var p, start, closed := PrintFields(f.fields, indent + "    "),
                            "\n" + indent + (f.name + ": ") + "{", "\n" + indent + "},";
    LineOpens(f, indent);
    KeyIsNotInWord(f.name, filter);
    KeyIsFlat(f.name, indent);
    OpenLineIsSealed(indent, f.name + ": ", filter);
    SealedConcat(start, p, filter);
    BraceClosedIsSealed(indent, filter);
    SealedConcat(start + p, closed, filter);
  }

  lemma KeyIsFlat(name: string, indent: string)
    requires IsKey(name) && AllSpaces(indent)
    ensures BraceFree(name + ": ") && Free(name + ": ", '\n') && BraceFree("\n" + indent + name + ": ")
  {
  }

  lemma BraceClosedIsSealed(indent: string, filter: string)
    requires AllSpaces(indent)
    ensures Sealed("\n" + indent + "},", filter)
  {
    hide Contains, Declaration;
  }

  lemma {:induction false} ValueLineIsSealed(f: Field, indent: string, filter: string)
    requires AllSpaces(indent) && PlainField(f) && IsKey(filter) && FieldApart(f, filter)
    ensures Sealed(Line(indent, f.name, PrintValue(f, indent)), filter)
    decreases f, 0
  {
    hide *;
    NestedFields(f, indent);
    NameIsKey(f);
    KeyIsFlat(f.name, indent);
    if IsLeaf(f) {
      LeafBraces(f, indent);
      FlatLine(f.name, PrintValue(f, indent), indent);
      BraceFreeIsSealed(Line(indent, f.name, PrintValue(f, indent)), filter);
    } else if f.Infos? {
      InfosAreSealed(f.infos, indent + "    ", filter);
      InfosLineIsSealed(f, indent, filter);
    } else {
      GroupIsApart(f, filter);
      FieldsAreSealed(f.fields, indent + "    ", filter);
      GroupLineIsSealed(f, indent, filter);
    }
  }

  lemma FlatLine(name: string, value: string, indent: string)
    requires BraceFree("\n" + indent + name + ": ") && BraceFree(value)
    ensures BraceFree(Line(indent, name, value))
  {
    assert Line(indent, name, value) == ("\n" + indent + name + ": ") + value + ",";
  }

  lemma GroupIsApart(f: Field, filter: string)
    requires f.Group? && FieldApart(f, filter)
    ensures !Contains(f.name, filter) && FieldsApart(f.fields, filter)
  {
  }

  lemma InfosLineIsSealed(f: Field, indent: string, filter: string)
    requires f.Infos? && AllSpaces(indent) && Sealed(PrintInfos(f.infos, indent + "    "), filter)
    requires BraceFree("\n" + indent + f.name + ": ")
    ensures Sealed(Line(indent, f.name, PrintValue(f, indent)), filter)
  {
    hide *;
    var before, p, behind := "\n" + indent + f.name + ": " + "[", PrintInfos(f.infos, indent + "    "),
                             "\n" + indent + "]" + ",";
    BlankEndIsFlat(indent);
    FlatPair("\n" + indent + f.name + ": ", "[");
    FlatPair("\n" + indent + "]", ",");
    BraceFreeIsSealed(before, filter);
    BraceFreeIsSealed(behind, filter);
    SealedConcat(before, p, filter);
    SealedConcat(before + p, behind, filter);
    InfosLineIs(f, indent);
  }

  lemma FlatPair(a: string, b: string)
    requires BraceFree(a) && BraceFree(b)
    ensures BraceFree(a + b)
  {
  }

  lemma InfosLineIs(f: Field, indent: string)
    requires f.Infos?
    ensures Line(indent, f.name, PrintValue(f, indent)) ==
            "\n" + indent + f.name + ": " + "[" + PrintInfos(f.infos, indent + "    ") + ("\n" + indent + "]" + ",")
  {
    hide PrintInfos;
  }

  lemma InfoIsSealed(info: Info, indent: string, filter: string)
    requires AllSpaces(indent) && PlainStrings(info.imports) && IsKey(filter)
    ensures Sealed(PrintInfo(info, indent), filter)
  {
    hide *;
    var start, inner := "\n" + indent + "" + "{", InfoInner(info, indent);
    NothingIsNoKey(filter);
    OpenLineIsSealed(indent, "", filter);
    StringsAreBraceFree(info.imports);
    InfoInnerIsFlat(info, indent);
    BraceFreeIsSealed(inner, filter);
    CloseIsSealed(filter);
    SealedConcat(start, inner, filter);
    SealedConcat(start + inner, "},", filter);
    InfoIsWrapped(info, indent);
    assert PrintInfo(info, indent) == start + inner + "},";
  }

  lemma CloseIsSealed(filter: string)
    ensures Sealed("},", filter)
  {
  }

  lemma NothingIsNoKey(filter: string)
    requires IsKey(filter)
    ensures !Contains("", filter) && BraceFree("") && Free("", '\n')
  {
  }

  lemma {:induction false} InfosAreSealed(infos: seq<Info>, indent: string, filter: string)
    requires AllSpaces(indent) && PlainInfos(infos) && IsKey(filter)
    ensures Sealed(PrintInfos(infos, indent), filter)
  {
    hide *;
    if infos == [] {
      NothingPrinted(indent);
      NothingIsBraceFree();
      BraceFreeIsSealed("", filter);
    } else {
      FirstInfo(infos, indent);
      InfoIsSealed(infos[0], indent, filter);
      InfosAreSealed(infos[1..], indent, filter);
      SealedConcat(PrintInfo(infos[0], indent), PrintInfos(infos[1..], indent), filter);
    }
  }

  lemma {:induction false} FieldsAreSealed(fs: seq<Field>, indent: string, filter: string)
    requires AllSpaces(indent) && PlainFields(fs) && IsKey(filter) && FieldsApart(fs, filter)
    ensures Sealed(PrintFields(fs, indent), filter)
    decreases fs, 1
  {
    hide *;
    if fs == [] {
      NothingPrinted(indent);
      NothingIsBraceFree();
      BraceFreeIsSealed("", filter);
    } else {
      FirstField(fs, indent);
      FirstIsApart(fs, filter);
      ValueLineIsSealed(fs[0], indent, filter);
      FieldsAreSealed(fs[1..], indent, filter);
      SealedConcat(Line(indent, fs[0].name, PrintValue(fs[0], indent)), PrintFields(fs[1..], indent), filter);
    }
  }

  lemma FirstIsApart(fs: seq<Field>, filter: string)
    requires fs != [] && FieldsApart(fs, filter)
    ensures FieldApart(fs[0], filter) && FieldsApart(fs[1..], filter)
  {
  }

  /** A declaration of another kind never attracts a lookup, whatever it quotes. */
  lemma ApartIsUnambiguous(d: Decl, name: string, filter: string)
    requires PlainDecl(d) && Apart(d, filter) && IsKey(filter)
    ensures Unambiguous(ToBlock(d), name, filter)
  {
    hide *;
    PlainDeclIsWellFormed(d);
    ApartFields(d, filter);
    FieldsAreSealed(FieldsOf(d), INDENT, filter);
    NewlineIsSealed(filter);
    SealedConcat(PrintFields(FieldsOf(d), INDENT), "\n", filter);
    BodyIs(d);
    SealedHasNoHit(ToBlock(d), name, filter);
  }

  lemma ApartFields(d: Decl, filter: string)
    requires Apart(d, filter)
    ensures FieldsApart(FieldsOf(d), filter) && !Contains(d.kind, filter)
  {
    hide Contains;
    assert FieldsOf(d)[0] == Str("name", d.name) && FieldsOf(d)[1..] == d.others;
  }

  lemma NewlineIsSealed(filter: string)
    ensures Sealed("\n", filter)
  {
  }

  lemma SealedHasNoHit(b: Block, name: string, filter: string)
    requires !Contains(b.kind, filter) && Sealed(b.body, filter)
    ensures Unambiguous(b, name, filter)
  {
    hide Contains, Declaration, OccursAt;
    forall i | 0 <= i < |b.body|
      ensures !HitAt(b, name, filter, i)
    {
      OpenBraceIs(b.body, i);
    }
  }

  // ---- Which declaration of a file a lookup ends in ----

  /** A declaration and where in the file its block stands. */
  datatype Place = Place(index: nat, decl: Decl)

  ghost predicate StandsIn(bs: seq<Block>, p: Place) {
    p.index < |bs| && bs[p.index] == ToBlock(p.decl) && PlainDecl(p.decl)
  }

  /** How a script looks a name up: any quotation of it may end the search, or only one behind a
      name key. */
  datatype Scanner = ByQuote | ByNameKey

  /** The block cannot be taken for one of this kind and name. */
  ghost predicate Clear(b: Block, name: string, filter: string, how: Scanner) {
    match how
    case ByQuote => Unambiguous(b, name, filter)
    case ByNameKey => NamesNothing(b, name, filter)
  }

  ghost predicate ClearBefore(bs: seq<Block>, t: nat, name: string, filter: string, how: Scanner) {
    t <= |bs| && forall j :: 0 <= j < t ==> WellFormed(bs[j]) && Clear(bs[j], name, filter, how)
  }

  /** The file holds the declaration of this kind and name there, and none before could be taken
      for it. Of the other blocks nothing else is asked. */
  ghost predicate Names(bs: seq<Block>, p: Place, name: string, filter: string, how: Scanner) {
    && StandsIn(bs, p) && p.decl.name == name && Contains(p.decl.kind, filter)
    && ClearBefore(bs, p.index, name, filter, how)
  }

  /** Which declaration a name stands for, if any. */
  ghost predicate ResolvesTo(bs: seq<Block>, name: string, at: Option<Place>, filter: string, how: Scanner) {
    && PlainString(name) && name != ""
    && match at
       case Some(p) => Names(bs, p, name, filter, how)
       case None => ClearBefore(bs, |bs|, name, filter, how)
  }

  ghost predicate Resolves(bs: seq<Block>, names: seq<string>, at: seq<Option<Place>>, filter: string, how: Scanner) {
    |at| == |names| && forall k :: 0 <= k < |names| ==> ResolvesTo(bs, names[k], at[k], filter, how)
  }

  /** The declarations those are, in the order listed. */
  function Chosen(at: seq<Option<Place>>): seq<Decl> {
    if at == [] then [] else (if at[0].Some? then [at[0].value.decl] else []) + Chosen(at[1..])
  }

  lemma NamesMean(bs: seq<Block>, p: Place, name: string, filter: string, how: Scanner)
    requires Names(bs, p, name, filter, how)
    ensures p.index < |bs| && bs[p.index] == ToBlock(p.decl) && p.decl.name == name
    ensures Contains(bs[p.index].kind, filter)
    ensures PlainDecl(p.decl) && WellFormed(bs[p.index]) && NamedFirst(bs[p.index], name)
    ensures Free(name, '{') && Free(name, '}')
    ensures forall j :: 0 <= j < p.index ==> WellFormed(bs[j]) && Clear(bs[j], name, filter, how)
  {
    assert PlainString(name);
    hide PlainDecl, WellFormed, Clear, Contains, NamedFirst, ToBlock;
    PlainDeclIsWellFormed(p.decl);
    BodyIs(p.decl);
  }

  lemma ClearMeans(bs: seq<Block>, t: nat, name: string, filter: string)
    requires t <= |bs|
    ensures forall j :: 0 <= j < t ==> (Clear(bs[j], name, filter, ByQuote) <==> Unambiguous(bs[j], name, filter))
    ensures forall j :: 0 <= j < t ==> (Clear(bs[j], name, filter, ByNameKey) <==> NamesNothing(bs[j], name, filter))
  {
    hide Unambiguous, NamesNothing;
  }

  /** A printed declaration is found under its name, before or after other blocks that quote it. */
  lemma DeclFound(bs: seq<Block>, p: Place, name: string, filter: string)
    requires Names(bs, p, name, filter, ByQuote)
    ensures NamedBlock(PrintFile(bs), name, filter) == Some(BlockText(ToBlock(p.decl)))
  {
    hide *;
    NamesMean(bs, p, name, filter, ByQuote);
    ClearMeans(bs, p.index, name, filter);
    DeclBraces(p.decl);
    PrintedLookup(bs, p.index, name, filter);
  }

  lemma DeclNotFound(bs: seq<Block>, name: string, filter: string)
    requires PlainString(name) && ClearBefore(bs, |bs|, name, filter, ByQuote)
    ensures NamedBlock(PrintFile(bs), name, filter) == None
  {
    ClearMeans(bs, |bs|, name, filter);
    hide WellFormed, NamedBlock, Unambiguous, NamesNothing, PrintFile, LooksLikeFlag;
    PrintedLookupFails(bs, name, filter);
  }

  // ---- Rewriting a declaration ----

  /** A rewritten block of another kind keeps what the names stand for. */
  lemma RewriteKeepsNames(bs: seq<Block>, t: nat, e: Decl, name: string, at: Option<Place>, filter: string,
                          how: Scanner)
    requires t < |bs| && !Contains(bs[t].kind, filter) && PlainDecl(e) && Apart(e, filter) && IsKey(filter)
    requires ResolvesTo(bs, name, at, filter, how)
    ensures ResolvesTo(bs[t := ToBlock(e)], name, at, filter, how)
  {
    hide WellFormed, Unambiguous, NamesNothing, PlainDecl, PlainString, Apart, Contains, ToBlock, IsKey;
    PlainDeclIsWellFormed(e);
    ApartIsUnambiguous(e, name, filter);
    UnambiguousNamesNothing(ToBlock(e), name, filter);
    assert Clear(ToBlock(e), name, filter, how);
    hide Clear;
    if at.Some? {
      BodyIs(at.value.decl);
    }
  }

  lemma RewriteKeepsAllNames(bs: seq<Block>, t: nat, e: Decl, names: seq<string>, at: seq<Option<Place>>,
                             filter: string, how: Scanner)
    requires t < |bs| && !Contains(bs[t].kind, filter) && PlainDecl(e) && Apart(e, filter) && IsKey(filter)
    requires Resolves(bs, names, at, filter, how)
    ensures Resolves(bs[t := ToBlock(e)], names, at, filter, how)
  {
    hide ResolvesTo, PlainDecl, Apart, Contains, ToBlock, IsKey;
    forall k | 0 <= k < |names|
      ensures ResolvesTo(bs[t := ToBlock(e)], names[k], at[k], filter, how)
    {
      RewriteKeepsNames(bs, t, e, names[k], at[k], filter, how);
    }
  }

  /** The rewritten block itself is found where the old one was. */
  lemma RewriteKeepsTarget(bs: seq<Block>, p: Place, e: Decl, filter: string, how: Scanner)
    requires Names(bs, p, p.decl.name, filter, how)
    requires e.name == p.decl.name && e.kind == p.decl.kind && PlainDecl(e)
    ensures Names(bs[p.index := ToBlock(e)], Place(p.index, e), e.name, filter, how)
  {
    hide WellFormed, Clear, PlainDecl, Contains, ToBlock;
  }

  lemma {:induction false} ChosenArePlain(bs: seq<Block>, names: seq<string>, at: seq<Option<Place>>, filter: string,
                                          how: Scanner)
    requires Resolves(bs, names, at, filter, how)
    ensures forall i :: 0 <= i < |Chosen(at)| ==> PlainDecl(Chosen(at)[i])
    decreases |at|
  {
    hide PlainDecl, PlainString, Contains, ClearBefore, ToBlock;
    if at != [] {
      assert ResolvesTo(bs, names[0], at[0], filter, how);
      ChosenArePlain(bs, names[1..], at[1..], filter, how);
    }
  }
}
