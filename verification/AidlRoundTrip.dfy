/** Printing versions and reading them back. */
module AidlRoundTrip {
  import opened Text
  import opened Brackets
  import opened SoongFields
  import opened SoongPrinter
  import opened AidlVersions

  // ---- Quoted numbers ----

  lemma DigitsRun(d: string, i: nat, rest: string)
    requires i <= |d| && (forall k :: i <= k < |d| ==> IsDigit(d[k])) && (rest != "" ==> !IsDigit(rest[0]))
    ensures DigitsEnd(d + rest, i) == |d|
    decreases |d| - i
  {
    if i < |d| {
      DigitsRun(d, i + 1, rest);
    }
  }

  lemma QuotedNumber(d: string, rest: string)
    requires d != "" && AllDigits(d)
    ensures NumberAt(Quoted(d) + rest) == Some((FromDec(d), |d| + 2))
  {
    var s := Quoted(d) + rest;
    assert s == ("\"" + d) + ("\"" + rest);
    DigitsRun("\"" + d, 1, "\"" + rest);
    assert s[1..|d| + 1] == d;
    assert s[|d| + 1] == '"';
  }

  lemma {:induction false} SkipQuoteFree(v: string, s: string)
    requires Free(v, '"')
    ensures NumbersIn(v + s) == NumbersIn(s)
  {
    if v == "" {
      assert v + s == s;
    } else {
      assert (v + s)[1..] == v[1..] + s;
      SkipQuoteFree(v[1..], s);
    }
  }

  function NumberOf(v: string): seq<nat> {
    if v != "" && AllDigits(v) then [FromDec(v)] else []
  }

  /** The numerals among the strings. */
  function Numbers(values: seq<string>): seq<nat> {
    if values == [] then [] else NumberOf(values[0]) + Numbers(values[1..])
  }

  lemma DigitsStop(v: string, rest: string)
    requires Free(v, '"') && !AllDigits(v)
    ensures NumberAt(Quoted(v) + rest) == None
  {
    var s := Quoted(v) + rest;
    var k :| 0 <= k < |v| && !IsDigit(v[k]);
    var e := DigitsEnd(s, 1);
    assert s[1 + k] == v[k];
    assert e <= 1 + k && s[e] == v[e - 1];
  }

  lemma NumbersInQuoted(v: string, rest: string)
    requires Free(v, '"') && (rest == "" || rest[0] == ',')
    ensures NumbersIn(Quoted(v) + rest) == NumberOf(v) + NumbersIn(rest)
  {
    if v != "" && AllDigits(v) {
      QuotedNumber(v, rest);
      assert (Quoted(v) + rest)[|v| + 2..] == rest;
    } else {
      NoQuotedNumber(v, rest);
    }
  }

  lemma NoQuotedNumber(v: string, rest: string)
    requires Free(v, '"') && (rest == "" || rest[0] == ',') && !(v != "" && AllDigits(v))
    ensures NumbersIn(Quoted(v) + rest) == NumbersIn(rest)
  {
    hide FromDec, DigitsEnd;
    var s := Quoted(v) + rest;
    if v == "" {
      DigitsRun("\"", 1, "\"" + rest);
      assert s == "\"" + ("\"" + rest);
    } else {
      DigitsStop(v, rest);
    }
    assert NumberAt(s) == None;
    assert s[1..] == v + ("\"" + rest);
    SkipQuoteFree(v, "\"" + rest);
    DigitsRun("\"", 1, rest);
    assert NumberAt("\"" + rest) == None;
    assert ("\"" + rest)[1..] == rest;
  }

  /** A printed list of strings gives back exactly the numerals in it. */
  lemma {:induction false} NumbersInStrings(values: seq<string>)
    requires forall i :: 0 <= i < |values| ==> Free(values[i], '"')
    ensures NumbersIn(PrintStrings(values)) == Numbers(values)
  {
    if |values| == 1 {
      assert Quoted(values[0]) + "" == Quoted(values[0]);
      NumbersInQuoted(values[0], "");
      assert Numbers(values[1..]) == [];
    } else if values != [] {
      var rest := PrintStrings(values[1..]);
      assert PrintStrings(values) == Quoted(values[0]) + (", " + rest);
      NumbersInQuoted(values[0], ", " + rest);
      SkipQuoteFree(", ", rest);
      NumbersInStrings(values[1..]);
    }
  }

  function PrintNumerals(versions: seq<nat>): (values: seq<string>)
    ensures |values| == |versions|
    ensures forall i :: 0 <= i < |versions| ==> values[i] == Dec(versions[i])
  {
    seq(|versions|, i requires 0 <= i < |versions| => Dec(versions[i]))
  }

  lemma {:induction false} NumbersOfNumerals(versions: seq<nat>)
    ensures Numbers(PrintNumerals(versions)) == versions
  {
    if versions != [] {
      DecRoundTrip(versions[0]);
      NumbersOfNumerals(versions[1..]);
      assert PrintNumerals(versions)[1..] == PrintNumerals(versions[1..]);
    }
  }

  // ---- The walk over versions_with_info ----

  /** Nothing in a starts a version literal, even together with what follows. */
  ghost predicate Silent(a: string, s: string) {
    forall i :: 0 <= i < |a| ==> VersionAt((a + s)[i..]) == None
  }

  lemma {:induction false} WalkOver(a: string, s: string, depth: int)
    requires BraceFree(a) && Silent(a, s)
    ensures Walk(a + s, depth) == Walk(s, depth)
  {
    hide VersionAt;
    if a == "" {
      assert a + s == s;
    } else {
      assert (a + s)[0..] == a + s && VersionAt(a + s) == None;
      assert (a + s)[1..] == a[1..] + s;
      forall i | 0 <= i < |a[1..]|
        ensures VersionAt((a[1..] + s)[i..]) == None
      {
        assert (a[1..] + s)[i..] == (a + s)[i + 1..];
      }
      WalkOver(a[1..], s, depth);
    }
  }

  lemma NoVIsSilent(a: string, s: string)
    requires Free(a, 'v')
    ensures Silent(a, s)
  {
    forall i | 0 <= i < |a|
      ensures VersionAt((a + s)[i..]) == None
    {
      assert (a + s)[i..][0] == a[i];
    }
  }

  /** No quoted number starts at j, however s goes on. */
  predicate NoNumberAt(s: string, j: nat) {
    j < |s| && (s[j] != '"' || (j + 1 < |s| && !IsDigit(s[j + 1])))
  }

  /** No colon of s that ends the word `version` has a quoted number behind it. */
  predicate Mute(s: string) {
    && (s != "" ==> s[0] != ':')
    && forall i :: 0 < i < |s| && s[i] == ':' && s[i - 1] == 'n' ==> NoNumberAt(s, SkipSpace(s, i + 1))
  }

  lemma NoNumberBefore(a: string, b: string, i: nat)
    requires i <= |a| && NoNumberAt(a, SkipSpace(a, i))
    ensures NoNumberAt(a + b, SkipSpace(a + b, i))
  {
    hide IsSpace, IsDigit, SkipSpace;
    SkipSpaceWithin(a, b, i);
  }

  lemma NoNumberBehind(a: string, b: string, i: nat)
    requires i <= |b| && NoNumberAt(b, SkipSpace(b, i))
    ensures NoNumberAt(a + b, SkipSpace(a + b, |a| + i))
  {
    hide IsSpace, IsDigit, SkipSpace;
    SkipSpaceShift(a, b, i);
  }

  lemma MuteColon(a: string, b: string, i: nat)
    requires Mute(a) && Mute(b) && 0 < i < |a + b| && (a + b)[i] == ':' && (a + b)[i - 1] == 'n'
    ensures NoNumberAt(a + b, SkipSpace(a + b, i + 1))
  {
    hide NoNumberAt, SkipSpace;
    if i < |a| {
      assert a[i] == ':' && a[i - 1] == 'n';
      NoNumberBefore(a, b, i + 1);
    } else {
      assert i > |a| && b[i - |a|] == ':' && b[i - |a| - 1] == 'n';
      NoNumberBehind(a, b, i - |a| + 1);
    }
  }

  lemma MuteConcat(a: string, b: string)
    requires Mute(a) && Mute(b)
    ensures Mute(a + b)
  {
    hide NoNumberAt, SkipSpace;
    var s := a + b;
    forall i | 0 < i < |s| && s[i] == ':' && s[i - 1] == 'n'
      ensures NoNumberAt(s, SkipSpace(s, i + 1))
    {
      MuteColon(a, b, i);
    }
  }

  lemma ColonFreeIsMute(a: string)
    requires Free(a, ':')
    ensures Mute(a)
  {
  }

  /** A quoted string, whatever it says, with what is printed behind it. */
  lemma QuotedIsMute(v: string, c: char)
    requires Free(v, '"') && (c == ',' || c == ']')
    ensures Mute(Quoted(v) + [c])
  {
    hide IsSpace;
    var s := Quoted(v) + [c];
    forall i | 0 < i < |s| && s[i] == ':' && s[i - 1] == 'n'
      ensures NoNumberAt(s, SkipSpace(s, i + 1))
    {
      assert 1 < i <= |v|;
      SkipSpaceInQuotes(v, c, i);
      var j := SkipSpace(v, i);
      assert s[j + 1] == if j < |v| then v[j] else '"';
      assert j == |v| ==> s[j + 2] == c;
    }
  }

  /** A mute text is silent before a character that is not part of the literal. */
  lemma MuteIsSilent(a: string, s: string)
    requires Mute(a) && s != "" && Free(VERSION, s[0])
    ensures Silent(a, s)
  {
    hide VersionAt, NoNumberAt;
    forall i | 0 <= i < |a|
      ensures VersionAt((a + s)[i..]) == None
    {
      MuteAt(a, s, i);
    }
  }

  lemma MuteAt(a: string, s: string, i: nat)
    requires Mute(a) && s != "" && Free(VERSION, s[0]) && i < |a|
    ensures VersionAt((a + s)[i..]) == None
  {
    hide SkipSpace, NumberAt, NoNumberAt;
    var t := (a + s)[i..];
    if VERSION <= t {
      assert t[6] == VERSION[6] == 'n' && t[7] == VERSION[7] == ':';
      var k := |a| - i;
      assert t[k] == s[0] && forall n :: 0 <= n < 8 ==> t[n] == VERSION[n];
      if k >= 8 {
        assert a[i + 7] == t[7] && a[i + 6] == t[6];
        NoNumberBefore(a, s, i + 8);
        NoNumberInTail(a + s, i);
      }
    }
  }

  lemma NoNumberInTail(s: string, i: nat)
    requires i + 8 <= |s| && NoNumberAt(s, SkipSpace(s, i + 8))
    ensures NumberAt(s[i..][SkipSpace(s[i..], 8)..]) == None
  {
    hide SkipSpace, NumberAt, IsDigit;
    var t := s[i..];
    assert s[..i] + t == s;
    SkipSpaceShift(s[..i], t, 8);
    NumberNeedsDigit(t[SkipSpace(t, 8)..]);
  }

  lemma NumberNeedsDigit(s: string)
    ensures NumberAt(s) != None ==> |s| > 1 && s[0] == '"' && IsDigit(s[1])
  {
  }

  /** Import names without quotes and brackets of their own. */
  predicate PlainImports(values: seq<string>) {
    forall i :: 0 <= i < |values| ==>
      Free(values[i], '"') && BraceFree(values[i]) && Free(values[i], '[') && Free(values[i], ']')
  }

  lemma {:induction false} ImportsAreFlat(values: seq<string>)
    requires PlainImports(values)
    ensures BraceFree(PrintStrings(values)) && Free(PrintStrings(values), '[') && Free(PrintStrings(values), ']')
  {
    if |values| > 1 {
      ImportsAreFlat(values[1..]);
    }
  }

  lemma {:induction false} ImportsAreMute(values: seq<string>)
    requires PlainImports(values)
    ensures Mute(PrintStrings(values) + "]")
  {
    hide Mute;
    ColonFreeIsMute("]");
    ColonFreeIsMute(" ");
    if values == [] {
      assert PrintStrings(values) + "]" == "]";
    } else {
      var v := values[0];
      QuotedIsMute(v, ',');
      QuotedIsMute(v, ']');
      if |values| > 1 {
        var rest := PrintStrings(values[1..]) + "]";
        ImportsAreMute(values[1..]);
        MuteConcat(Quoted(v) + [','], " ");
        MuteConcat(Quoted(v) + [','] + " ", rest);
        assert PrintStrings(values) + "]" == Quoted(v) + [','] + " " + rest;
      }
    }
  }

  function Versions(infos: seq<Info>): seq<nat> {
    if infos == [] then [] else [infos[0].version] + Versions(infos[1..])
  }

  lemma WalkOpen(s: string)
    ensures Walk("{" + s, 0) == Walk(s, 1)
  {
    assert ("{" + s)[1..] == s && ("{" + s)[0] == '{' && VERSION[0] == 'v';
    assert VersionAt("{" + s) == None;
  }

  lemma WalkClose(s: string)
    ensures Walk("}" + s, 1) == Walk(s, 0)
  {
    assert ("}" + s)[1..] == s;
  }

  lemma WalkLiteral(n: nat, s: string)
    ensures Walk("version: " + Quoted(Dec(n)) + s, 1) == [n] + Walk(s, 1)
  {
    hide *;
    var t := "version: " + Quoted(Dec(n)) + s;
    LiteralAt(n, s);
    assert t[9 + |Dec(n)| + 2..] == s by { LiteralEnd(Dec(n), s); }
    WalkStep(t, 0, 1);
    WeightIs(t[0]);
    assert t[0..] == t;
  }

  lemma LiteralEnd(d: string, s: string)
    ensures ("version: " + Quoted(d) + s)[9 + |d| + 2..] == s && ("version: " + Quoted(d) + s)[0] == 'v'
  {
  }

  lemma LiteralAt(n: nat, s: string)
    ensures |"version: " + Quoted(Dec(n)) + s| >= 9 + |Dec(n)| + 2
    ensures ("version: " + Quoted(Dec(n)) + s)[0] == 'v'
    ensures VersionAt("version: " + Quoted(Dec(n)) + s) == Some((n, 9 + |Dec(n)| + 2))
  {
    var v := Quoted(Dec(n)) + s;
    var t := "version: " + Quoted(Dec(n)) + s;
    assert t == "version: " + v && t[9..] == v && VERSION <= t;
    QuotedNumber(Dec(n), s);
    DecRoundTrip(n);
    hide NumberAt, Dec, FromDec;
    assert SkipSpace(t, 8) == 9;
  }

  /** What stands between the version literal and the closing brace. */
  function ImportsPart(info: Info, indent: string): string {
    ",\n" + indent + "    imports: [" + PrintStrings(info.imports) + "],\n" + indent
  }

  lemma ImportsPartIsSilent(info: Info, indent: string, s: string)
    requires AllSpaces(indent) && PlainImports(info.imports)
    ensures BraceFree(ImportsPart(info, indent)) && Silent(ImportsPart(info, indent), "}" + s)
  {
    hide *;
    var a := ",\n" + indent + "    imports: [";
    var j := PrintStrings(info.imports) + "]";
    var z := ",\n" + indent;
    ImportsPartPieces(info, indent);
    ImportsPartEnds(indent);
    ImportsAreFlat(info.imports);
    ImportsAreMute(info.imports);
    ImportsPartIsBraceFree(info, indent);
    MuteConcat(a, j);
    MuteConcat(a + j, z);
    MuteIsSilent(ImportsPart(info, indent), "}" + s);
  }

  lemma ImportsPartPieces(info: Info, indent: string)
    ensures ImportsPart(info, indent) ==
            (",\n" + indent + "    imports: [") + (PrintStrings(info.imports) + "]") + (",\n" + indent)
  {
    hide PrintStrings;
  }

  lemma ImportsPartIsBraceFree(info: Info, indent: string)
    requires AllSpaces(indent) && BraceFree(PrintStrings(info.imports))
    ensures BraceFree(ImportsPart(info, indent))
  {
    hide PrintStrings;
    BlankIsFree(indent);
  }

  lemma ImportsPartEnds(indent: string)
    requires AllSpaces(indent)
    ensures Mute(",\n" + indent + "    imports: [") && Mute(",\n" + indent) && Free(VERSION, '}')
  {
    assert Free(",\n" + indent, ':') && Free("    ", ':') && Free(VERSION, '}');
    hide *;
    ImportsKeyIsMute();
    ColonFreeIsMute(",\n" + indent);
    ColonFreeIsMute("    ");
    MuteConcat(",\n" + indent, "    ");
    MuteConcat(",\n" + indent + "    ", "imports: [");
    assert ",\n" + indent + "    imports: [" == ",\n" + indent + "    " + "imports: [";
  }

  lemma ImportsKeyIsMute()
    ensures Mute("imports: [")
  {
    var k := "imports: [";
    assert k[7] == ':' && k[6] == 's';
  }

  lemma InfoPieces(info: Info, indent: string, rest: string)
    ensures PrintInfo(info, indent) + rest ==
            ("\n" + indent) + ("{" + (("\n" + indent + "    ") + ("version: " + Quoted(Dec(info.version))
            + (ImportsPart(info, indent) + ("}" + ("," + rest))))))
  {
    hide *;
    InfoIsLines(info, indent);
    VersionLine(indent, Quoted(Dec(info.version)));
    ImportsLine(info, indent);
  }

  lemma InfoIsLines(info: Info, indent: string)
    ensures PrintInfo(info, indent) ==
            ("\n" + indent) + "{" + Line(indent + "    ", "version", Quoted(Dec(info.version)))
            + Line(indent + "    ", "imports", "[" + PrintStrings(info.imports) + "]") + ("\n" + indent) + "}" + ","
  {
    hide Line, PrintStrings, Dec, Quoted;
  }

  lemma VersionLine(indent: string, q: string)
    ensures Line(indent + "    ", "version", q) == ("\n" + indent + "    ") + ("version: " + q) + ","
  {
  }

  lemma ImportsLine(info: Info, indent: string)
    ensures ImportsPart(info, indent) ==
            "," + Line(indent + "    ", "imports", "[" + PrintStrings(info.imports) + "]") + ("\n" + indent)
  {
    hide PrintStrings;
  }

  lemma WalkInfo(info: Info, indent: string, rest: string)
    requires AllSpaces(indent) && PlainImports(info.imports)
    ensures Walk(PrintInfo(info, indent) + rest, 0) == [info.version] + Walk(rest, 0)
  {
    BlankIsFree(indent);
    hide *;
    InfoPieces(info, indent, rest);
    var part := ImportsPart(info, indent);
    var s4 := "," + rest;
    var s3 := part + ("}" + s4);
    var s2 := "version: " + Quoted(Dec(info.version)) + s3;
    var s1 := ("\n" + indent + "    ") + s2;
    var s0 := "{" + s1;
    NoVIsSilent("\n" + indent, s0);
    WalkOver("\n" + indent, s0, 0);
    WalkOpen(s1);
    NoVIsSilent("\n" + indent + "    ", s2);
    WalkOver("\n" + indent + "    ", s2, 1);
    WalkLiteral(info.version, s3);
    ImportsPartIsSilent(info, indent, s4);
    WalkOver(part, "}" + s4, 1);
    WalkClose(s4);
    NoVIsSilent(",", rest);
    WalkOver(",", rest, 0);
  }

  lemma BlankIsFree(indent: string)
    requires AllSpaces(indent)
    ensures Free("\n" + indent, 'v') && BraceFree("\n" + indent)
    ensures Free("\n" + indent + "    ", 'v') && BraceFree("\n" + indent + "    ")
    ensures Free(",", 'v') && BraceFree(",")
  {
  }

  lemma {:induction false} WalkInfos(infos: seq<Info>, indent: string, rest: string)
    requires AllSpaces(indent) && forall i :: 0 <= i < |infos| ==> PlainImports(infos[i].imports)
    ensures Walk(PrintInfos(infos, indent) + rest, 0) == Versions(infos) + Walk(rest, 0)
  {
    hide PrintInfo, PlainImports, AllSpaces, Walk;
    if infos == [] {
      assert "" + rest == rest;
    } else {
      var more := PrintInfos(infos[1..], indent);
      assert PrintInfos(infos, indent) + rest == PrintInfo(infos[0], indent) + (more + rest);
      WalkInfo(infos[0], indent, more + rest);
      WalkInfos(infos[1..], indent, rest);
    }
  }

  // ---- Brackets pair up in printed text ----

  /** A printed object up to its import list. */
  function InfoHead(info: Info, indent: string): string {
    "\n" + indent + "{" + Line(indent + "    ", "version", Quoted(Dec(info.version)))
    + "\n" + indent + "    imports: "
  }

  lemma InfoIsHeadAndImports(info: Info, indent: string)
    ensures PrintInfo(info, indent) ==
            InfoHead(info, indent) + (['['] + PrintStrings(info.imports) + [']']) + (",\n" + indent + "},")
  {
    hide PrintStrings, Dec, Quoted;
  }

  lemma InfoEndsAreFlat(info: Info, indent: string)
    requires AllSpaces(indent)
    ensures Free(InfoHead(info, indent), '[') && Free(InfoHead(info, indent), ']')
    ensures Free(",\n" + indent + "},", '[') && Free(",\n" + indent + "},", ']')
  {
  }

  lemma InfoIsNested(info: Info, indent: string)
    requires AllSpaces(indent) && PlainImports(info.imports)
    ensures Nested(PrintInfo(info, indent), '[', ']')
  {
    hide Nested, Balance, PrintInfo, PlainImports, AllSpaces, PrintStrings, InfoHead;
    ImportsAreFlat(info.imports);
    var j := PrintStrings(info.imports);
    var a := InfoHead(info, indent);
    var z := ",\n" + indent + "},";
    InfoIsHeadAndImports(info, indent);
    InfoEndsAreFlat(info, indent);
    FlatIsNested(a, '[', ']');
    FlatIsNested(j, '[', ']');
    FlatIsNested(z, '[', ']');
    WrapIsNested(j, '[', ']');
    ConcatIsNested(a, ['['] + j + [']'], '[', ']');
    ConcatIsNested(a + (['['] + j + [']']), z, '[', ']');
  }

  lemma {:induction false} InfosAreNested(infos: seq<Info>, indent: string)
    requires AllSpaces(indent) && forall i :: 0 <= i < |infos| ==> PlainImports(infos[i].imports)
    ensures Nested(PrintInfos(infos, indent), '[', ']')
  {
    hide PrintInfo, PlainImports, AllSpaces, Nested;
    if infos == [] {
      FlatIsNested("", '[', ']');
    } else {
      InfoIsNested(infos[0], indent);
      InfosAreNested(infos[1..], indent);
      ConcatIsNested(PrintInfo(infos[0], indent), PrintInfos(infos[1..], indent), '[', ']');
    }
  }

  /** The text between the brackets of a printed versions_with_info list. */
  function InfosInner(infos: seq<Info>, indent: string): string {
    PrintInfos(infos, indent + "    ") + "\n" + indent
  }

  lemma InfosInnerReadsBack(infos: seq<Info>, indent: string)
    requires AllSpaces(indent) && forall i :: 0 <= i < |infos| ==> PlainImports(infos[i].imports)
    ensures Walk(InfosInner(infos, indent), 0) == Versions(infos)
    ensures Nested(InfosInner(infos, indent), '[', ']')
  {
    hide *;
    var ind := indent + "    ";
    var z := "\n" + indent;
    InnerEnd(indent);
    InnerIs(infos, indent);
    InfosAreNested(infos, ind);
    ConcatIsNested(PrintInfos(infos, ind), z, '[', ']');
    WalkInfos(infos, ind, z);
  }

  lemma InnerEnd(indent: string)
    requires AllSpaces(indent)
    ensures AllSpaces(indent + "    ") && Nested("\n" + indent, '[', ']') && Walk("\n" + indent, 0) == []
  {
    var z := "\n" + indent;
    BlankIsFree(indent);
    FlatIsNested(z, '[', ']');
    assert Walk("", 0) == [] && z + "" == z;
    hide Nested, Walk;
    NoVIsSilent(z, "");
    WalkOver(z, "", 0);
  }

  lemma InnerIs(infos: seq<Info>, indent: string)
    ensures InfosInner(infos, indent) == PrintInfos(infos, indent + "    ") + ("\n" + indent)
  {
    hide PrintInfos;
  }

  // ---- The print/parse inverse for versions ----

  /** versions_with_info: wherever the first such field of a block stands, and whatever the block
      holds before and after it, the versions printed come back, sorted and without
      duplicates; neither an import list's own brackets nor its strings are mistaken for
      anything else. */
  lemma InfosReadBack(block: string, infos: seq<Info>, indent: string, after: string)
    requires AllSpaces(indent) && forall i :: 0 <= i < |infos| ==> PlainImports(infos[i].imports)
    requires ValueText(block, "versions_with_info", Bracket) ==
             Some(PrintValue(Infos("versions_with_info", infos), indent) + after)
    ensures FactsIn(block).versions == SortedSet(Versions(infos))
  {
    hide *;
    InfosInnerReadsBack(infos, indent);
    InfosValueIs("versions_with_info", infos, indent, after);
    FieldTextIs(block, "versions_with_info", InfosInner(infos, indent), after);
    VersionsFromInfos(block);
  }

  lemma InfosValueIs(name: string, infos: seq<Info>, indent: string, after: string)
    ensures PrintValue(Infos(name, infos), indent) + after == "[" + InfosInner(infos, indent) + "]" + after
  {
    hide PrintInfos;
  }

  lemma VersionsFromInfos(block: string)
    ensures match FieldText(block, "versions_with_info")
            case Some(raw) => FactsIn(block).versions == SortedSet(Walk(raw, 0))
            case None => true
  {
    hide FieldText, Walk, ValueText, FlagIn, SortedSet;
  }

  /** versions: the plain list, read when there is no versions_with_info. */
  lemma StringsReadBack(block: string, values: seq<string>, after: string)
    requires forall i :: 0 <= i < |values| ==> Free(values[i], '"') && Free(values[i], '[') && Free(values[i], ']')
    requires ValueText(block, "versions_with_info", Bracket) == None
    requires ValueText(block, "versions", Bracket) == Some("[" + PrintStrings(values) + "]" + after)
    ensures FactsIn(block).versions == SortedSet(Numbers(values))
  {
    StringsAreFlat(values);
    FlatIsNested(PrintStrings(values), '[', ']');
    hide Nested, ValueText, SortedSet, PrintStrings;
    FieldTextIs(block, "versions", PrintStrings(values), after);
    NumbersInStrings(values);
    assert FieldText(block, "versions_with_info") == None;
  }

  lemma {:induction false} StringsAreFlat(values: seq<string>)
    requires forall i :: 0 <= i < |values| ==> Free(values[i], '[') && Free(values[i], ']')
    ensures Free(PrintStrings(values), '[') && Free(PrintStrings(values), ']')
  {
    if |values| > 1 {
      StringsAreFlat(values[1..]);
    }
  }
}
