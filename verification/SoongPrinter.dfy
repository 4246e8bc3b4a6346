/** Soong blocks as data, their canonical printed form, and what a field search finds in it. */
module SoongPrinter {
  import opened Text
  import opened SoongFields

  // ---- Fields ----

  /** One element of versions_with_info. */
  datatype Info = Info(version: nat, imports: seq<string>)

  datatype Field =
    | Flag(name: string, on: bool)
    | Str(name: string, value: string)
    | Strs(name: string, values: seq<string>)
    | Infos(name: string, infos: seq<Info>)
    | Group(name: string, fields: seq<Field>)

  function PrintStrings(values: seq<string>): string {
    if values == [] then ""
    else if |values| == 1 then Quoted(values[0])
    else Quoted(values[0]) + ", " + PrintStrings(values[1..])
  }

  function Line(indent: string, name: string, value: string): string {
    "\n" + indent + name + ": " + value + ","
  }

  function PrintInfo(info: Info, indent: string): string {
    "\n" + indent + "{"
    + Line(indent + "    ", "version", Quoted(Dec(info.version)))
    + Line(indent + "    ", "imports", "[" + PrintStrings(info.imports) + "]")
    + "\n" + indent + "},"
  }

  function PrintInfos(infos: seq<Info>, indent: string): string {
    if infos == [] then "" else PrintInfo(infos[0], indent) + PrintInfos(infos[1..], indent)
  }

  function PrintValue(f: Field, indent: string): string
    decreases f, 0
  {
    match f
    case Flag(_, on) => if on then "true" else "false"
    case Str(_, value) => Quoted(value)
    case Strs(_, values) => "[" + PrintStrings(values) + "]"
    case Infos(_, infos) => "[" + PrintInfos(infos, indent + "    ") + "\n" + indent + "]"
    case Group(_, fields) => "{" + PrintFields(fields, indent + "    ") + "\n" + indent + "}"
  }

  function PrintFields(fs: seq<Field>, indent: string): string
    decreases fs, 1
  {
    if fs == [] then ""
    else Line(indent, fs[0].name, PrintValue(fs[0], indent)) + PrintFields(fs[1..], indent)
  }

  // ---- Document order ----

  function FlattenInfos(infos: seq<Info>): seq<Field> {
    if infos == [] then []
    else [Str("version", Dec(infos[0].version)), Strs("imports", infos[0].imports)] + FlattenInfos(infos[1..])
  }

  /** All fields in the order their names are printed, at any depth. */
  function Flatten(fs: seq<Field>): seq<Field> {
    if fs == [] then []
    else
      [fs[0]]
      + (match fs[0]
         case Infos(_, infos) => FlattenInfos(infos)
         case Group(_, fields) => Flatten(fields)
         case _ => [])
      + Flatten(fs[1..])
  }

  predicate HasKind(f: Field, kind: ValueKind) {
    match kind
    case Bracket => f.Strs? || f.Infos?
    case TrueOrFalse => f.Flag?
    case Vintf => f.Str? && f.value == "vintf"
  }

  /** The first field with this name and kind of value. */
  function First(flat: seq<Field>, key: string, kind: ValueKind): Option<Field> {
    if flat == [] then None
    else if flat[0].name == key && HasKind(flat[0], kind) then Some(flat[0])
    else First(flat[1..], key, kind)
  }

  lemma {:induction false} FirstOfConcat(a: seq<Field>, b: seq<Field>, key: string, kind: ValueKind)
    ensures First(a + b, key, kind) ==
            if First(a, key, kind).Some? then First(a, key, kind) else First(b, key, kind)
  {
    if a == [] {
      assert a + b == b;
    } else {
      assert (a + b)[1..] == a[1..] + b;
      FirstOfConcat(a[1..], b, key, kind);
    }
  }

  lemma {:induction false} FlattenConcat(a: seq<Field>, b: seq<Field>)
    ensures Flatten(a + b) == Flatten(a) + Flatten(b)
    decreases |a|
  {
    if a == [] {
      assert a + b == b;
    } else {
      assert (a + b)[1..] == a[1..] + b;
      FlattenConcat(a[1..], b);
    }
  }

  lemma FlattenLeaf(f: Field)
    requires IsLeaf(f)
    ensures Flatten([f]) == [f]
  {
    assert [f][1..] == [];
  }

  // ---- Which strings may be printed ----

  /** The string itself reads `key: true` or `key: false` somewhere. */
  predicate LooksLikeFlag(s: string) {
    exists i :: 0 < i < |s| && s[i] == ':' && !Inert(s[i - 1])
             && (OccursAt(s, "true", SkipSpace(s, i + 1)) || OccursAt(s, "false", SkipSpace(s, i + 1)))
  }

  /** No quotes or brackets, and nothing that could be read as a flag. */
  predicate PlainString(s: string) {
    && !LooksLikeFlag(s)
    && forall i :: 0 <= i < |s| ==>
         s[i] != '"' && s[i] != '[' && s[i] != ']' && s[i] != '{' && s[i] != '}'
  }

  /** In particular a string without the two words may be printed, whatever its colons. */
  lemma NoFlagWordIsPlain(s: string)
    requires !Contains(s, "true") && !Contains(s, "false")
    requires Free(s, '"') && Free(s, '[') && Free(s, ']') && Free(s, '{') && Free(s, '}')
    ensures PlainString(s)
  {
    hide OccursAt, Inert, SkipSpace;
  }

  predicate PlainStrings(values: seq<string>) {
    forall i :: 0 <= i < |values| ==> PlainString(values[i])
  }

  predicate PlainInfos(infos: seq<Info>) {
    forall i :: 0 <= i < |infos| ==> PlainStrings(infos[i].imports)
  }

  predicate PlainField(f: Field)
    decreases f, 0
  {
    IsKey(f.name) &&
    match f
    case Flag(_, _) => true
    case Str(_, value) => PlainString(value)
    case Strs(_, values) => PlainStrings(values)
    case Infos(_, infos) => PlainInfos(infos)
    case Group(_, fields) => PlainFields(fields)
  }

  predicate PlainFields(fs: seq<Field>)
    decreases fs, 1
  {
    fs == [] || (PlainField(fs[0]) && PlainFields(fs[1..]))
  }

  predicate AllSpaces(s: string) {
    forall i :: 0 <= i < |s| ==> s[i] == ' '
  }

  predicate BraceFree(s: string) {
    Free(s, '{') && Free(s, '}')
  }

  // ---- Colons in printed text ----

  /** Text that may be put behind any other quiet text. */
  predicate QuietAfter(s: string) {
    Quiet(s) && (s != "" ==> s[0] != ':')
  }

  lemma QuietConcat(a: string, b: string)
    requires Quiet(a) && QuietAfter(b)
    ensures Quiet(a + b) && (QuietAfter(a) ==> QuietAfter(a + b))
  {
    hide NoValueAt, Inert;
    var s := a + b;
    forall i | 0 < i < |s| && s[i] == ':' && !Inert(s[i - 1])
      ensures NoValueAt(s, SkipSpace(s, i + 1))
    {
      if i < |a| {
        assert a[i] == s[i] && a[i - 1] == s[i - 1];
        NoValueBefore(a, b, i + 1);
      } else {
        assert i > |a| && b[i - |a|] == s[i] && b[i - |a| - 1] == s[i - 1];
        NoValueBehind(a, b, i - |a| + 1);
      }
    }
  }

  lemma NoValueBefore(a: string, b: string, i: nat)
    requires i <= |a| && NoValueAt(a, SkipSpace(a, i))
    ensures NoValueAt(a + b, SkipSpace(a + b, i))
  {
    hide SkipSpace, Differs;
    SkipSpaceWithin(a, b, i);
    NoValueStays(a, b, SkipSpace(a, i), Bracket);
  }

  lemma NoValueBehind(a: string, b: string, i: nat)
    requires i <= |b| && NoValueAt(b, SkipSpace(b, i))
    ensures NoValueAt(a + b, SkipSpace(a + b, |a| + i))
  {
    hide SkipSpace, Differs;
    SkipSpaceShift(a, b, i);
    DiffersBehind(a, b, SkipSpace(b, i), "true");
    DiffersBehind(a, b, SkipSpace(b, i), "false");
    DiffersBehind(a, b, SkipSpace(b, i), Quoted("vintf"));
  }

  lemma DiffersBehind(a: string, b: string, j: nat, pat: string)
    requires Differs(b, j, pat)
    ensures Differs(a + b, |a| + j, pat)
  {
    var k :| 0 <= k < |pat| && j + k < |b| && b[j + k] != pat[k];
    assert (a + b)[|a| + j + k] == b[j + k];
  }

  /** A quoted string with what is printed behind it: a comma or a closing bracket. */
  lemma QuotedIsQuiet(v: string, c: char)
    requires PlainString(v) && (c == ',' || c == ']')
    ensures QuietAfter(Quoted(v) + [c])
  {
    hide NoValueAt, Inert, LooksLikeFlag, IsSpace;
    var s := Quoted(v) + [c];
    forall i | 0 < i < |s| && s[i] == ':' && !Inert(s[i - 1])
      ensures NoValueAt(s, SkipSpace(s, i + 1))
    {
      assert 1 < i <= |v| by { assert Inert('"') by { QuoteIsInert(); } }
      assert v[i - 1] == ':' && v[i - 2] == s[i - 1];
      ColonInString(v, c, i - 1);
    }
  }

  lemma QuoteIsInert()
    ensures Inert('"') && !IsSpace('"')
  {
  }

  lemma ColonInString(v: string, c: char, i: nat)
    requires PlainString(v) && (c == ',' || c == ']')
    requires 0 < i < |v| && v[i] == ':' && !Inert(v[i - 1])
    ensures NoValueAt(Quoted(v) + [c], SkipSpace(Quoted(v) + [c], i + 2))
  {
    hide *;
    var j := SkipSpace(v, i + 1);
    NoFlagAt(v, i);
    SkipSpaceInQuotes(v, c, i + 1);
    WordInQuotes(v, c, j, "true");
    WordInQuotes(v, c, j, "false");
    VintfInQuotes(v, c, j);
    ValueInQuotes(v, c, j);
  }

  lemma NoFlagAt(v: string, i: nat)
    requires PlainString(v) && 0 < i < |v| && v[i] == ':' && !Inert(v[i - 1])
    ensures !OccursAt(v, "true", SkipSpace(v, i + 1)) && !OccursAt(v, "false", SkipSpace(v, i + 1))
    ensures IsKey("true") && IsKey("false")
  {
    hide OccursAt, SkipSpace, Inert;
  }

  lemma ValueInQuotes(v: string, c: char, j: nat)
    requires PlainString(v) && j <= |v|
    requires Differs(Quoted(v) + [c], j + 1, "true") && Differs(Quoted(v) + [c], j + 1, "false")
    requires Differs(Quoted(v) + [c], j + 1, Quoted("vintf"))
    ensures NoValueAt(Quoted(v) + [c], j + 1)
  {
    hide Differs, LooksLikeFlag;
    assert (Quoted(v) + [c])[j + 1] == if j < |v| then v[j] else '"';
  }

  lemma SkipSpaceInQuotes(v: string, c: char, i: nat)
    requires i <= |v|
    ensures SkipSpace(Quoted(v) + [c], i + 1) == 1 + SkipSpace(v, i) && SkipSpace(v, i) <= |v|
    decreases |v| - i
  {
    QuoteIsInert();
    hide IsSpace;
    var s := Quoted(v) + [c];
    assert s[i + 1] == if i < |v| then v[i] else '"';
    if i < |v| && IsSpace(v[i]) {
      SkipSpaceInQuotes(v, c, i + 1);
    }
  }

  /** What does not stand in the string does not stand there with the closing quote either. */
  lemma WordInQuotes(v: string, c: char, j: nat, pat: string)
    requires j <= |v| && !OccursAt(v, pat, j) && IsKey(pat)
    ensures Differs(Quoted(v) + [c], j + 1, pat)
  {
    var s := Quoted(v) + [c];
    if j + |pat| <= |v| {
      assert v[j..j + |pat|] != pat;
      var k :| 0 <= k < |pat| && v[j..j + |pat|][k] != pat[k];
      assert s[j + 1 + k] == v[j + k];
    } else {
      var k := |v| - j;
      assert s[j + 1 + k] == '"' && IsWord(pat[k]);
    }
  }

  lemma VintfInQuotes(v: string, c: char, j: nat)
    requires j <= |v| && (c == ',' || c == ']') && PlainString(v)
    ensures Differs(Quoted(v) + [c], j + 1, Quoted("vintf"))
  {
    hide LooksLikeFlag;
    var s, pat := Quoted(v) + [c], Quoted("vintf");
    if j < |v| {
      assert s[j + 1 + 0] == v[j] && pat[0] == '"';
    } else {
      assert s[j + 1 + 1] == c && pat[1] == 'v';
    }
  }

  lemma {:induction false} StringsAreQuiet(values: seq<string>)
    requires PlainStrings(values)
    ensures QuietAfter(PrintStrings(values) + "]")
  {
    hide PlainString, Quiet;
    if values == [] {
      BracketsAreQuiet();
      assert PrintStrings(values) + "]" == "]";
    } else {
      var v := values[0];
      assert PlainString(v);
      QuotedIsQuiet(v, ',');
      QuotedIsQuiet(v, ']');
      if |values| > 1 {
        var rest := PrintStrings(values[1..]) + "]";
        StringsAreQuiet(values[1..]);
        BracketsAreQuiet();
        QuietConcat(Quoted(v) + [','], " ");
        QuietConcat(Quoted(v) + [','] + " ", rest);
        assert PrintStrings(values) + "]" == Quoted(v) + [','] + " " + rest;
      }
    }
  }

  lemma BracketsAreQuiet()
    ensures QuietAfter("]") && QuietAfter(" ") && QuietAfter("[") && QuietAfter(",")
    ensures QuietAfter("true,") && QuietAfter("false,")
  {
  }

  /** The values that are printed on one line. */
  predicate IsLeaf(f: Field) {
    f.Flag? || f.Str? || f.Strs?
  }

  lemma LeafIsQuiet(f: Field, indent: string)
    requires IsLeaf(f) && PlainField(f)
    ensures QuietAfter(PrintValue(f, indent) + ",")
  {
    hide Quiet;
    BracketsAreQuiet();
    match f
    case Flag(_, on) => assert PrintValue(f, indent) + "," == if on then "true," else "false,";
    case Str(_, value) =>
      assert PrintValue(f, indent) + "," == Quoted(value) + [','];
      QuotedIsQuiet(value, ',');
    case Strs(_, values) =>
      StringsAreQuiet(values);
      QuietConcat("[", PrintStrings(values) + "]");
      QuietConcat("[" + (PrintStrings(values) + "]"), ",");
      assert PrintValue(f, indent) + "," == "[" + (PrintStrings(values) + "]") + ",";
  }

  lemma IndentLeads(lead: string, indent: string, name: string)
    requires Quiet(lead) && AllSpaces(indent) && IsKey(name)
    ensures LeadsTo(lead + "\n" + indent, name)
  {
    QuietConcat(lead, "\n");
    QuietConcat(lead + "\n", indent);
    var l := lead + "\n" + indent;
    assert l[|l| - 1] == ' ' || l[|l| - 1] == '\n';
  }

  // ---- Searching printed fields ----

  /** How the value of a field starts tells its kind. */
  lemma KindOfValue(f: Field, indent: string, rest: string, kind: ValueKind)
    requires PlainField(f)
    ensures var s := " " + PrintValue(f, indent) + rest;
            SkipSpace(s, 0) == 1 && (StartsValue(s, 1, kind) <==> HasKind(f, kind))
  {
    hide *;
    FirstChar(f, indent);
    OneSpace(PrintValue(f, indent), rest);
    if f.Flag? {
      FlagKind(f, rest, kind);
    } else if f.Str? {
      StringKind(f, rest, kind);
    } else {
      BracketKind(f, PrintValue(f, indent), rest, kind);
    }
  }

  lemma OneSpace(v: string, rest: string)
    requires v != "" && !IsSpace(v[0]) && IsSpace(' ')
    ensures SkipSpace(" " + v + rest, 0) == 1
  {
    hide IsSpace;
    var s := " " + v + rest;
    assert s[1] == v[0];
    assert SkipSpace(s, 1) == 1;
  }

  lemma FlagKind(f: Field, rest: string, kind: ValueKind)
    requires f.Flag?
    ensures StartsValue(" " + (if f.on then "true" else "false") + rest, 1, kind) <==> HasKind(f, kind)
  {
    var v := if f.on then "true" else "false";
    hide OccursAt;
    StartsWith(" " + v + rest, Quoted("vintf"), 1);
  }

  lemma StringKind(f: Field, rest: string, kind: ValueKind)
    requires f.Str? && PlainString(f.value)
    ensures StartsValue(" " + Quoted(f.value) + rest, 1, kind) <==> HasKind(f, kind)
  {
    hide OccursAt, PlainString;
    var s := " " + Quoted(f.value) + rest;
    StartsWith(s, "true", 1);
    StartsWith(s, "false", 1);
    StringIsVintf(f.value, rest);
  }

  lemma BracketKind(f: Field, v: string, rest: string, kind: ValueKind)
    requires !f.Flag? && !f.Str? && v != "" && v[0] == (if f.Group? then '{' else '[')
    ensures StartsValue(" " + v + rest, 1, kind) <==> HasKind(f, kind)
  {
    hide OccursAt;
    var s := " " + v + rest;
    StartsWith(s, "true", 1);
    StartsWith(s, "false", 1);
    StartsWith(s, Quoted("vintf"), 1);
  }

  lemma FirstChar(f: Field, indent: string)
    requires PlainField(f)
    ensures var v := PrintValue(f, indent);
            && v != "" && !IsSpace(v[0]) && IsSpace(' ')
            && v[0] == (match f case Flag(_, on) => if on then 't' else 'f'
                                case Str(_, _) => '"'
                                case Group(_, _) => '{'
                                case _ => '[')
            && (f.Flag? ==> v == if f.on then "true" else "false")
            && (f.Str? ==> v == Quoted(f.value) && PlainString(f.value))
  {
  }

  lemma StartsWith(s: string, pat: string, i: int)
    requires pat != ""
    ensures OccursAt(s, pat, i) ==> s[i] == pat[0]
  {
  }

  lemma StringIsVintf(value: string, rest: string)
    requires PlainString(value)
    ensures OccursAt(" " + Quoted(value) + rest, Quoted("vintf"), 1) <==> value == "vintf"
  {
    hide Quiet;
    var s := " " + Quoted(value) + rest;
    if value == "vintf" {
      assert s[1..8] == Quoted("vintf");
    } else if OccursAt(s, Quoted("vintf"), 1) {
      assert forall i :: 0 <= i < |value| ==> s[2 + i] == value[i];
      CharAt(s, Quoted("vintf"), 1, 6);
      if |value| < 5 {
        CharAt(s, Quoted("vintf"), 1, 1 + |value|);
      }
    }
  }

  /** The text around one printed field, cut at its colon. */
  lemma CutAtColon(lead: string, f: Field, indent: string, rest: string)
    ensures lead + Line(indent, f.name, PrintValue(f, indent)) + rest ==
            Keyed(lead + "\n" + indent, f.name, AfterColon(f, indent, rest))
  {
    hide PrintValue;
  }

  /** One field: either the search ends here, or it goes on with what follows the colon. */
  lemma SearchField(lead: string, f: Field, indent: string, rest: string, key: string, kind: ValueKind)
    requires Quiet(lead) && AllSpaces(indent) && PlainField(f) && IsKey(key)
    ensures ValueText(lead + Line(indent, f.name, PrintValue(f, indent)) + rest, key, kind) ==
            if f.name == key && HasKind(f, kind) then Some(PrintValue(f, indent) + "," + rest)
            else ValueText(AfterColon(f, indent, rest), key, kind)
  {
    assert IsKey(f.name);
    hide *;
    var v := AfterColon(f, indent, rest);
    AfterColonIs(f, indent, rest, kind);
    CutAtColon(lead, f, indent, rest);
    IndentLeads(lead, indent, f.name);
    if f.name == key && HasKind(f, kind) {
      HitField(lead + "\n" + indent, f.name, v, kind);
    } else {
      SkipField(lead + "\n" + indent, f.name, v, key, kind);
    }
  }

  function AfterColon(f: Field, indent: string, rest: string): string {
    " " + PrintValue(f, indent) + "," + rest
  }

  lemma AfterColonIs(f: Field, indent: string, rest: string, kind: ValueKind)
    requires PlainField(f)
    ensures var v := AfterColon(f, indent, rest);
            && |v| > 0 && v[1..] == PrintValue(f, indent) + "," + rest
            && SkipSpace(v, 0) == 1 && (StartsValue(v, 1, kind) <==> HasKind(f, kind))
  {
    hide PrintValue, PlainField, StartsValue, SkipSpace, HasKind;
    var v := AfterColon(f, indent, rest);
    assert v == " " + PrintValue(f, indent) + ("," + rest);
    KindOfValue(f, indent, "," + rest, kind);
  }

  /** What a search over text finds when flat is what the text shows, in order: the first
      matching field's value, or whatever comes after. */
  ghost predicate Finds(text: string, flat: seq<Field>, key: string, kind: ValueKind,
                        indent: string, after: string, tail: string, rest: string) {
    match First(flat, key, kind)
    case Some(f) => AllSpaces(indent) && ValueText(text, key, kind) == Some(PrintValue(f, indent) + "," + after)
    case None => Quiet(tail) && ValueText(text, key, kind) == ValueText(tail + rest, key, kind)
  }

  lemma SearchLeaf(lead: string, f: Field, indent: string, rest: string, key: string, kind: ValueKind)
      returns (tail: string)
    requires Quiet(lead) && AllSpaces(indent) && PlainField(f) && IsKey(key) && IsLeaf(f)
    ensures Finds(lead + Line(indent, f.name, PrintValue(f, indent)) + rest, [f], key, kind,
                  indent, rest, tail, rest)
    ensures tail == " " + PrintValue(f, indent) + "," && Quiet(tail)
  {
    tail := " " + PrintValue(f, indent) + ",";
    SearchField(lead, f, indent, rest, key, kind);
    LeafIsQuiet(f, indent);
    BracketsAreQuiet();
    hide PrintValue, PlainField, ValueText, Line, Quiet;
    QuietConcat(" ", PrintValue(f, indent) + ",");
    assert " " + (PrintValue(f, indent) + ",") == tail;
    assert First([f], key, kind) == if f.name == key && HasKind(f, kind) then Some(f) else None;
  }

  /** Searching one text after another. */
  lemma FindsThen(text: string, mid: string, a: seq<Field>, b: seq<Field>, key: string, kind: ValueKind,
                  i1: string, a1: string, t1: string, r1: string,
                  i2: string, a2: string, t2: string, r2: string)
    requires Finds(text, a, key, kind, i1, a1, t1, r1)
    requires First(a, key, kind).None? ==> mid == t1 + r1 && Finds(mid, b, key, kind, i2, a2, t2, r2)
    ensures if First(a, key, kind).Some? then Finds(text, a + b, key, kind, i1, a1, t2, r2)
            else Finds(text, a + b, key, kind, i2, a2, t2, r2)
  {
    hide ValueText, PrintValue, First;
    FirstOfConcat(a, b, key, kind);
  }

  lemma FindsRest(text: string, flat: seq<Field>, key: string, kind: ValueKind,
                  ind: string, after: string, tail: string, rest: string, tail': string, rest': string)
    requires Finds(text, flat, key, kind, ind, after, tail, rest)
    requires tail + rest == tail' + rest' && Quiet(tail')
    ensures Finds(text, flat, key, kind, ind, after, tail', rest')
  {
    hide ValueText, PrintValue, First;
  }

  function InfoFields(info: Info): seq<Field> {
    [Str("version", Dec(info.version)), Strs("imports", info.imports)]
  }

  /** "\n", the indentation and a bracket: the text around nested fields. */
  lemma BracketLineIsQuiet(lead: string, indent: string, bracket: string)
    requires Quiet(lead) && AllSpaces(indent)
    requires bracket == "{" || bracket == "}," || bracket == "],"
    ensures Quiet(lead + "\n" + indent + bracket)
  {
    QuietConcat(lead, "\n");
    QuietConcat(lead + "\n", indent);
    QuietConcat(lead + "\n" + indent, bracket);
  }

  lemma InfoText(lead: string, info: Info, indent: string, rest: string)
    ensures var f := InfoFields(info);
            var ind := indent + "    ";
            lead + PrintInfo(info, indent) + rest ==
            (lead + "\n" + indent + "{") + Line(ind, f[0].name, PrintValue(f[0], ind))
            + (Line(ind, f[1].name, PrintValue(f[1], ind)) + ("\n" + indent + "}," + rest))
  {
    hide Line, PrintStrings, Quoted, Dec;
  }

  lemma SearchTwoLeaves(lead: string, f: Field, g: Field, ind: string, rest: string, key: string, kind: ValueKind)
      returns (after: string, tail: string)
    requires Quiet(lead) && AllSpaces(ind) && IsKey(key)
    requires PlainField(f) && PlainField(g) && IsLeaf(f) && IsLeaf(g)
    ensures Finds(lead + Line(ind, f.name, PrintValue(f, ind)) + (Line(ind, g.name, PrintValue(g, ind)) + rest),
                  [f] + [g], key, kind, ind, after, tail, rest)
    ensures Quiet(tail)
  {
    hide *;
    var line2 := Line(ind, g.name, PrintValue(g, ind));
    var text := lead + Line(ind, f.name, PrintValue(f, ind)) + (line2 + rest);
    var t1 := SearchLeaf(lead, f, ind, line2 + rest, key, kind);
    tail := SearchLeaf(t1, g, ind, rest, key, kind);
    assert t1 + (line2 + rest) == t1 + line2 + rest;
    FindsThen(text, t1 + line2 + rest, [f], [g], key, kind,
              ind, line2 + rest, t1, line2 + rest, ind, rest, tail, rest);
    after := if First([f], key, kind).Some? then line2 + rest else rest;
  }

  lemma InfoFieldsArePlain(info: Info, indent: string)
    requires AllSpaces(indent) && PlainStrings(info.imports)
    ensures var f := InfoFields(info);
            && AllSpaces(indent + "    ") && |f| == 2 && f == [f[0]] + [f[1]]
            && PlainField(f[0]) && PlainField(f[1]) && IsLeaf(f[0]) && IsLeaf(f[1])
  {
  }

  lemma SearchInfo(lead: string, info: Info, indent: string, rest: string, key: string, kind: ValueKind)
      returns (ind: string, after: string, tail: string)
    requires Quiet(lead) && AllSpaces(indent) && PlainStrings(info.imports) && IsKey(key)
    ensures Finds(lead + PrintInfo(info, indent) + rest, InfoFields(info), key, kind, ind, after, tail, rest)
    ensures Quiet(tail)
  {
    hide *;
    var f := InfoFields(info);
    ind := indent + "    ";
    InfoFieldsArePlain(info, indent);
    var r2 := "\n" + indent + "}," + rest;
    InfoText(lead, info, indent, rest);
    BracketLineIsQuiet(lead, indent, "{");
    var t2;
    after, t2 := SearchTwoLeaves(lead + "\n" + indent + "{", f[0], f[1], ind, r2, key, kind);
    tail := t2 + "\n" + indent + "},";
    BracketLineIsQuiet(t2, indent, "},");
    FindsRest(lead + PrintInfo(info, indent) + rest, f, key, kind, ind, after, t2, r2, tail, rest);
  }

  lemma NoFieldFinds(lead: string, rest: string, key: string, kind: ValueKind, indent: string)
    requires Quiet(lead)
    ensures Finds(lead + rest, [], key, kind, indent, "", lead, rest)
  {
    hide Quiet, ValueText;
  }

  lemma NothingPrinted(indent: string)
    ensures PrintInfos([], indent) == PrintFields([], indent) == "" && FlattenInfos([]) == Flatten([]) == []
  {
  }

  lemma FirstInfo(infos: seq<Info>, indent: string)
    requires infos != [] && PlainInfos(infos)
    ensures FlattenInfos(infos) == InfoFields(infos[0]) + FlattenInfos(infos[1..])
    ensures PlainStrings(infos[0].imports) && PlainInfos(infos[1..])
    ensures PrintInfos(infos, indent) == PrintInfo(infos[0], indent) + PrintInfos(infos[1..], indent)
  {
    hide PrintInfo, PlainStrings, Dec;
  }

  lemma {:induction false} SearchInfos(lead: string, infos: seq<Info>, indent: string, rest: string,
                                       key: string, kind: ValueKind)
      returns (ind: string, after: string, tail: string)
    requires Quiet(lead) && AllSpaces(indent) && PlainInfos(infos) && IsKey(key)
    ensures Finds(lead + PrintInfos(infos, indent) + rest, FlattenInfos(infos), key, kind, ind, after, tail, rest)
    ensures Quiet(tail)
    decreases |infos|
  {
    hide *;
    if infos == [] {
      NoFieldFinds(lead, rest, key, kind, indent);
      NothingPrinted(indent);
      assert lead + PrintInfos(infos, indent) + rest == lead + rest;
      ind, after, tail := indent, "", lead;
    } else {
      var more := PrintInfos(infos[1..], indent);
      FirstInfo(infos, indent);
      var text := lead + PrintInfos(infos, indent) + rest;
      assert text == lead + PrintInfo(infos[0], indent) + (more + rest);
      var i1, a1, t1 := SearchInfo(lead, infos[0], indent, more + rest, key, kind);
      var i2, a2, t2 := SearchInfos(t1, infos[1..], indent, rest, key, kind);
      assert t1 + (more + rest) == t1 + more + rest;
      FindsThen(text, t1 + more + rest, InfoFields(infos[0]), FlattenInfos(infos[1..]), key, kind,
                i1, a1, t1, more + rest, i2, a2, t2, rest);
      tail := t2;
      if First(InfoFields(infos[0]), key, kind).Some? {
        ind, after := i1, a1;
      } else {
        ind, after := i2, a2;
      }
    }
  }

  lemma InfosTail(f: Field, indent: string, more: string)
    requires f.Infos?
    ensures AfterColon(f, indent, more) ==
            " [" + PrintInfos(f.infos, indent + "    ") + ("\n" + indent + "]," + more)
  {
    hide PrintInfos;
  }

  lemma GroupTail(f: Field, indent: string, more: string)
    requires f.Group?
    ensures AfterColon(f, indent, more) ==
            " {" + PrintFields(f.fields, indent + "    ") + ("\n" + indent + "}," + more)
  {
    hide PrintFields;
  }

  function FlattenOne(f: Field): seq<Field> {
    match f
    case Infos(_, infos) => FlattenInfos(infos)
    case Group(_, fields) => Flatten(fields)
    case _ => []
  }

  /** One field with everything nested in it. */
  lemma {:induction false} SearchWhole(lead: string, f: Field, indent: string, more: string,
                                       key: string, kind: ValueKind)
      returns (ind: string, after: string, tail: string)
    requires Quiet(lead) && AllSpaces(indent) && PlainField(f) && IsKey(key)
    ensures Finds(lead + Line(indent, f.name, PrintValue(f, indent)) + more, [f] + FlattenOne(f),
                  key, kind, ind, after, tail, more)
    ensures Quiet(tail)
    decreases f, 0
  {
    hide *;
    NestedFields(f, indent);
    if IsLeaf(f) {
      ind, after := indent, more;
      tail := SearchLeaf(lead, f, indent, more, key, kind);
    } else {
      var close := if f.Infos? then "]," else "},";
      var rest := "\n" + indent + close + more;
      var i2, a2, t2;
      if f.Infos? {
        InfosTail(f, indent, more);
        i2, a2, t2 := SearchInfos(" [", f.infos, indent + "    ", rest, key, kind);
      } else {
        GroupTail(f, indent, more);
        i2, a2, t2 := SearchFields(" {", f.fields, indent + "    ", rest, key, kind);
      }
      BracketLineIsQuiet(t2, indent, close);
      tail := t2 + "\n" + indent + close;
      FindsRest(AfterColon(f, indent, more), FlattenOne(f), key, kind, i2, a2, t2, rest, tail, more);
      ind, after := WholeField(lead, f, FlattenOne(f), indent, more, key, kind, i2, a2, tail);
    }
  }

  lemma NestedFields(f: Field, indent: string)
    requires AllSpaces(indent) && PlainField(f)
    ensures AllSpaces(indent + "    ") && Quiet(" [") && Quiet(" {")
    ensures f.Infos? ==> PlainInfos(f.infos) && FlattenOne(f) == FlattenInfos(f.infos)
    ensures f.Group? ==> PlainFields(f.fields) && FlattenOne(f) == Flatten(f.fields)
    ensures IsLeaf(f) ==> [f] + FlattenOne(f) == [f]
    ensures IsLeaf(f) || f.Infos? || f.Group?
  {
  }

  lemma WholeField(lead: string, f: Field, nested: seq<Field>, indent: string, more: string,
                   key: string, kind: ValueKind, i2: string, a2: string, tail: string)
      returns (ind: string, after: string)
    requires Quiet(lead) && AllSpaces(indent) && PlainField(f) && IsKey(key) && Quiet(tail)
    requires Finds(AfterColon(f, indent, more), nested, key, kind, i2, a2, tail, more)
    ensures Finds(lead + Line(indent, f.name, PrintValue(f, indent)) + more, [f] + nested,
                  key, kind, ind, after, tail, more)
  {
    SearchField(lead, f, indent, more, key, kind);
    assert First([f] + nested, key, kind) ==
           if f.name == key && HasKind(f, kind) then Some(f) else First(nested, key, kind) by {
      FirstOfConcat([f], nested, key, kind);
    }
    hide PrintValue, PlainField, ValueText, Line, First, AfterColon;
    if f.name == key && HasKind(f, kind) {
      ind, after := indent, more;
    } else {
      ind, after := i2, a2;
    }
  }

  lemma FirstField(fs: seq<Field>, indent: string)
    requires fs != [] && PlainFields(fs)
    ensures Flatten(fs) == [fs[0]] + FlattenOne(fs[0]) + Flatten(fs[1..])
    ensures PlainField(fs[0]) && PlainFields(fs[1..])
    ensures PrintFields(fs, indent) ==
            Line(indent, fs[0].name, PrintValue(fs[0], indent)) + PrintFields(fs[1..], indent)
  {
    hide PlainField, PrintValue, Line;
  }

  /** The search finds in printed fields exactly the first matching field in document order, at
      any depth, or goes on with what follows them. */
  lemma {:induction false} SearchFields(lead: string, fs: seq<Field>, indent: string, rest: string,
                                        key: string, kind: ValueKind)
      returns (ind: string, after: string, tail: string)
    requires Quiet(lead) && AllSpaces(indent) && PlainFields(fs) && IsKey(key)
    ensures Finds(lead + PrintFields(fs, indent) + rest, Flatten(fs), key, kind, ind, after, tail, rest)
    ensures Quiet(tail)
    decreases fs, 1
  {
    hide *;
    if fs == [] {
      NoFieldFinds(lead, rest, key, kind, indent);
      NothingPrinted(indent);
      assert lead + PrintFields(fs, indent) + rest == lead + rest;
      ind, after, tail := indent, "", lead;
    } else {
      var f := fs[0];
      var more := PrintFields(fs[1..], indent);
      var line := Line(indent, f.name, PrintValue(f, indent));
      FirstField(fs, indent);
      var text := lead + PrintFields(fs, indent) + rest;
      assert text == lead + line + (more + rest);
      var i1, a1, t1 := SearchWhole(lead, f, indent, more + rest, key, kind);
      var i2, a2, t2 := SearchFields(t1, fs[1..], indent, rest, key, kind);
      assert t1 + (more + rest) == t1 + more + rest;
      FindsThen(text, t1 + more + rest, [f] + FlattenOne(f), Flatten(fs[1..]), key, kind,
                i1, a1, t1, more + rest, i2, a2, t2, rest);
      tail := t2;
      if First([f] + FlattenOne(f), key, kind).Some? {
        ind, after := i1, a1;
      } else {
        ind, after := i2, a2;
      }
    }
  }
}
