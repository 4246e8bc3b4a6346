/** The generated blob list and its own past (closure.py, load_existing_prefixes and
    emit_proprietary_files): the list is printed from the paths, the tables and the prefix
    markers read back from the previous list. */
module BlobList {
  import opened Text
  import opened Sorting
  import opened BlobSections

  // ---- Text files as lines ----

  function TextOf(lines: seq<string>): string {
    if lines == [] then ""
    else
      var n := |lines| - 1;
      TextOf(lines[..n]) + lines[n] + "\n"
  }

  /** Reading in text mode: each of the three line ends becomes a line feed. */
  function Translated(text: string): string {
    if text == "" then ""
    else if text[0] != '\r' then [text[0]] + Translated(text[1..])
    else "\n" + Translated(text[if |text| > 1 && text[1] == '\n' then 2 else 1..])
  }

  /** The lines a loop over an open file sees, without their line breaks. */
  function LinesIn(text: string): seq<string> {
    var parts := Split(Translated(text), '\n');
    if parts[|parts| - 1] == "" then parts[..|parts| - 1] else parts
  }

  /** No line end of any kind. */
  predicate OnOneLine(s: string) {
    Free(s, '\n') && Free(s, '\r')
  }

  lemma OneLineConcat(a: string, b: string)
    requires OnOneLine(a) && OnOneLine(b)
    ensures OnOneLine(a + b)
  {
  }

  lemma {:induction false} NothingTranslated(text: string)
    requires Free(text, '\r')
    ensures Translated(text) == text
  {
    if text != "" {
      NothingTranslated(text[1..]);
    }
  }

  ghost predicate OneLiners(lines: seq<string>) {
    forall i :: 0 <= i < |lines| ==> OnOneLine(lines[i])
  }

  lemma JoinLast(parts: seq<string>, last: string, sep: string)
    requires parts != []
    ensures Join(parts + [last], sep) == Join(parts, sep) + sep + last
  {
    JoinConcat(parts, [last], sep);
  }

  lemma {:induction false} TextIsJoin(lines: seq<string>)
    ensures TextOf(lines) == Join(lines + [""], "\n")
  {
    if lines != [] {
      var n := |lines| - 1;
      TextIsJoin(lines[..n]);
      assert lines == lines[..n] + [lines[n]];
      JoinLast(lines, "", "\n");
      if n == 0 {
        assert lines[..0] == [];
      } else {
        JoinLast(lines[..n], lines[n], "\n");
        JoinLast(lines[..n], "", "\n");
      }
    }
  }

  lemma {:induction false} TextHasNoReturns(lines: seq<string>)
    requires OneLiners(lines)
    ensures Free(TextOf(lines), '\r')
  {
    if lines != [] {
      TextHasNoReturns(lines[..|lines| - 1]);
    }
  }

  lemma LinesReadBack(lines: seq<string>)
    requires OneLiners(lines)
    ensures LinesIn(TextOf(lines)) == lines
  {
    TextHasNoReturns(lines);
    NothingTranslated(TextOf(lines));
    TextIsJoin(lines);
    var parts := lines + [""];
    SplitOfJoin(parts, '\n');
    assert parts[..|parts| - 1] == lines;
  }

  lemma {:induction false} TranslatedConcat(a: string, rest: string)
    requires Free(a, '\r')
    ensures Translated(a + rest) == a + Translated(rest)
  {
    if a == "" {
      assert a + rest == rest;
    } else {
      assert (a + rest)[1..] == a[1..] + rest;
      TranslatedConcat(a[1..], rest);
    }
  }

  /** Text mode: a line ends at a line feed, at a carriage return or at both, and the last one at the
      end of the text. */
  lemma LineByLine(a: string, end: string, rest: string)
    requires OnOneLine(a)
    requires end == "\n" || end == "\r\n" || (end == "\r" && (rest == "" || rest[0] != '\n'))
    ensures LinesIn(a + end + rest) == [a] + LinesIn(rest)
  {
    NothingTranslated(a);
    assert Split(a, '\n') == [a];
    hide *;
    LineTranslated(a, end, rest);
    SplitConcat(a, Translated(rest), '\n');
    LastIsDropped(a, Translated(rest), a + end + rest, rest);
  }

  lemma LastLine(a: string)
    requires OnOneLine(a)
    ensures LinesIn(a) == if a == "" then [] else [a]
  {
    NothingTranslated(a);
    assert Split(a, '\n') == [a];
  }

  lemma LineTranslated(a: string, end: string, rest: string)
    requires Free(a, '\r')
    requires end == "\n" || end == "\r\n" || (end == "\r" && (rest == "" || rest[0] != '\n'))
    ensures Translated(a + end + rest) == a + ['\n'] + Translated(rest)
  {
    hide Translated;
    assert a + end + rest == a + (end + rest);
    TranslatedConcat(a, end + rest);
    EndTranslated(end, rest);
  }

  lemma LastIsDropped(a: string, more: string, text: string, rest: string)
    requires Translated(text) == a + ['\n'] + more && more == Translated(rest)
    requires Split(a + ['\n'] + more, '\n') == [a] + Split(more, '\n')
    ensures LinesIn(text) == [a] + LinesIn(rest)
  {
    hide Translated, Split;
    var parts := Split(more, '\n');
    assert ([a] + parts)[..|parts|] == [a] + parts[..|parts| - 1];
  }

  lemma EndTranslated(end: string, rest: string)
    requires end == "\n" || end == "\r\n" || (end == "\r" && (rest == "" || rest[0] != '\n'))
    ensures Translated(end + rest) == ['\n'] + Translated(rest)
  {
    if end == "\r\n" {
      assert (end + rest)[2..] == rest;
    } else {
      assert (end + rest)[1..] == rest;
    }
  }

  // ---- load_existing_prefixes ----

  /** The text before the first c, or all of it: s.split(c, 1)[0]. */
  function Before(s: string, c: char): string {
    var i := FindChar(s, c);
    if i == -1 then s else s[..i]
  }

  /** What one line says: a path and its marker. */
  function Parsed(line: string): Option<(string, string)> {
    if line == "" || line[0] == '#' then None
    else
      var s := LStrip(line);
      var (marker, rest) := if s != "" && (s[0] == '-' || s[0] == ';') then ([s[0]], LStrip(s[1..])) else ("", s);
      var blob := Strip(Before(rest, '|'));
      if blob == "" then None else Some((blob, marker))
  }

  /** The dictionary read from the lines: a later line wins. */
  function Loaded(lines: seq<string>): map<string, string> {
    if lines == [] then map[]
    else
      var n := |lines| - 1;
      match Parsed(lines[n])
      case Some((blob, marker)) => Loaded(lines[..n])[blob := marker]
      case None => Loaded(lines[..n])
  }

  lemma {:induction false} NamedIsLoaded(lines: seq<string>, blob: string)
    ensures blob in Loaded(lines) <==>
            exists k :: 0 <= k < |lines| && Parsed(lines[k]).Some? && Parsed(lines[k]).value.0 == blob
  {
    hide Parsed;
    if lines != [] {
      var n := |lines| - 1;
      NamedIsLoaded(lines[..n], blob);
      assert forall k :: 0 <= k < n ==> lines[..n][k] == lines[k];
    }
  }

  /** Of several lines for a path the last one counts. */
  lemma {:induction false} LastLineCounts(lines: seq<string>, k: nat, blob: string, marker: string)
    requires k < |lines| && Parsed(lines[k]) == Some((blob, marker))
    requires forall j, other :: k < j < |lines| ==> Parsed(lines[j]) != Some((blob, other))
    ensures blob in Loaded(lines) && Loaded(lines)[blob] == marker
  {
    hide Parsed;
    var n := |lines| - 1;
    if k < n {
      LastLineCounts(lines[..n], k, blob, marker);
      match Parsed(lines[n])
      case Some((other, m)) => assert Parsed(lines[n]) != Some((blob, m));
      case None =>
    }
  }

  /** No file reads like an empty one. */
  function LoadedFrom(file: Option<string>): map<string, string> {
    match file
    case Some(text) => Loaded(LinesIn(text))
    case None => map[]
  }

  method LoadExistingPrefixes(file: Option<string>) returns (prefixes: map<string, string>)
    ensures prefixes == LoadedFrom(file)
  {
    hide Strip, LStrip, Split;
    prefixes := map[];
    if file.None? {
      return;
    }
    var lines := LinesIn(file.value);
    for i := 0 to |lines|
      invariant prefixes == Loaded(lines[..i])
    {
      assert lines[..i + 1][..i] == lines[..i];
      var line := lines[i];
      if line == "" || line[0] == '#' {
        continue;
      }
      var s := LStrip(line);
      var prefix := "";
      if s != "" && (s[0] == '-' || s[0] == ';') {
        prefix := [s[0]];
        s := LStrip(s[1..]);
      }
      var blob := Strip(Before(s, '|'));
      if blob != "" {
        prefixes := prefixes[blob := prefix];
      }
    }
    assert lines[..|lines|] == lines;
  }

  /** prefixes.get(path, '') */
  function Get(prefixes: map<string, string>, path: string): string {
    if path in prefixes then prefixes[path] else ""
  }

  predicate IsMarker(s: string) {
    s == "" || s == "-" || s == ";"
  }

  lemma ParsedMarker(line: string)
    ensures Parsed(line).Some? ==> IsMarker(Parsed(line).value.1)
  {
    hide Strip, LStrip, Before;
  }

  lemma {:induction false} LoadedMarkers(lines: seq<string>, path: string)
    ensures IsMarker(Get(Loaded(lines), path))
  {
    hide Parsed, IsMarker;
    NoMarker();
    if lines != [] {
      LoadedMarkers(lines[..|lines| - 1], path);
      ParsedMarker(lines[|lines| - 1]);
    }
  }

  lemma NoMarker()
    ensures IsMarker("")
  {
  }

  /** When every line about a path carries the same marker, that marker is loaded. */
  lemma {:induction false} LoadedWhenUniform(lines: seq<string>, path: string, marker: string)
    requires forall i :: 0 <= i < |lines| && Parsed(lines[i]).Some? && Parsed(lines[i]).value.0 == path ==>
               Parsed(lines[i]).value.1 == marker
    ensures var m := Loaded(lines);
            if exists i :: 0 <= i < |lines| && Parsed(lines[i]).Some? && Parsed(lines[i]).value.0 == path
            then path in m && m[path] == marker
            else path !in m
  {
    hide Parsed;
    if lines != [] {
      var n := |lines| - 1;
      LoadedWhenUniform(lines[..n], path, marker);
      assert forall i :: 0 <= i < n ==> lines[..n][i] == lines[i];
    }
  }

  // ---- emit_proprietary_files ----

  /** The comment lines the list starts with, and the tables that put marks on paths. */
  datatype Tables = Tables(header: seq<string>, renames: map<string, string>, disableDeps: set<string>,
                           overrides: map<string, string>, fixSoname: map<string, string>)

  function ModuleMark(rel: string, t: Tables): string {
    if rel in t.renames then ";MODULE=" + t.renames[rel] else ""
  }

  function DepsMark(rel: string, t: Tables): string {
    if rel in t.disableDeps then ";DISABLE_DEPS" else ""
  }

  function OverridesMark(rel: string, t: Tables): string {
    if rel in t.overrides then ";OVERRIDES=" + t.overrides[rel] else ""
  }

  /** What is printed after a path. */
  function Marks(rel: string, t: Tables): string {
    if rel in t.fixSoname then ":" + t.fixSoname[rel] + ";FIX_SONAME"
    else ModuleMark(rel, t) + DepsMark(rel, t) + OverridesMark(rel, t)
  }

  predicate Marked(rel: string, t: Tables) {
    rel in t.fixSoname || rel in t.renames || rel in t.disableDeps || rel in t.overrides
  }

  function ItemLine(item: Item, prefixes: map<string, string>, t: Tables): string {
    match item
    case Title(section) => "# " + section
    case Entry(rel) => Get(prefixes, rel) + rel + Marks(rel, t)
    case Gap => ""
  }

  function ItemLines(items: seq<Item>, prefixes: map<string, string>, t: Tables): (lines: seq<string>)
    ensures |lines| == |items| && forall i :: 0 <= i < |items| ==> lines[i] == ItemLine(items[i], prefixes, t)
  {
    seq(|items|, i requires 0 <= i < |items| => ItemLine(items[i], prefixes, t))
  }

  function FileLines(rels: seq<string>, prefixes: map<string, string>, t: Tables): seq<string> {
    t.header + ItemLines(Layout(rels), prefixes, t)
  }

  function Emitted(rels: seq<string>, prefixes: map<string, string>, t: Tables): string {
    TextOf(FileLines(rels, prefixes, t))
  }

  /** Each mark is appended to the line; a new soname replaces the whole line. */
  method EntryLine(rel: string, prefixes: map<string, string>, t: Tables) returns (line: string)
    ensures line == ItemLine(Entry(rel), prefixes, t)
  {
    var pref := Get(prefixes, rel);
    line := pref + rel;
    if rel in t.renames {
      line := line + (";MODULE=" + t.renames[rel]);
    }
    assert line == pref + rel + ModuleMark(rel, t);
    if rel in t.disableDeps {
      line := line + ";DISABLE_DEPS";
    }
    assert line == pref + rel + ModuleMark(rel, t) + DepsMark(rel, t);
    if rel in t.overrides {
      line := line + (";OVERRIDES=" + t.overrides[rel]);
    }
    hide *;
    assert line == pref + rel + ModuleMark(rel, t) + DepsMark(rel, t) + OverridesMark(rel, t) by {
    }
    Regroup(pref + rel, ModuleMark(rel, t), DepsMark(rel, t), OverridesMark(rel, t));
    if rel in t.fixSoname {
      line := pref + rel + (":" + t.fixSoname[rel] + ";FIX_SONAME");
    }
  }

  lemma Regroup(a: string, m: string, d: string, o: string)
    ensures a + m + d + o == a + (m + d + o)
  {
  }

  method EmitProprietaryFiles(rels: seq<string>, prefixes: map<string, string>, t: Tables) returns (text: string)
    ensures text == Emitted(rels, prefixes, t)
  {
    hide Layout, ItemLine;
    text := TextOf(t.header);
    var items := LayOut(rels);
    assert t.header + ItemLines(items, prefixes, t)[..0] == t.header;
    for i := 0 to |items|
      invariant text == TextOf(t.header + ItemLines(items, prefixes, t)[..i])
    {
      var line: string;
      match items[i] {
        case Title(section) => line := "# " + section;
        case Entry(rel) => line := EntryLine(rel, prefixes, t);
        case Gap => line := "";
      }
      assert line == ItemLine(items[i], prefixes, t) by { ItemLineIs(items[i], prefixes, t); }
      NextLine(t.header, ItemLines(items, prefixes, t), i);
      text := text + line + "\n";
    }
    assert ItemLines(items, prefixes, t)[..|items|] == ItemLines(items, prefixes, t);
  }

  lemma ItemLineIs(item: Item, prefixes: map<string, string>, t: Tables)
    ensures item.Title? ==> ItemLine(item, prefixes, t) == "# " + item.section
    ensures item.Gap? ==> ItemLine(item, prefixes, t) == ""
  {
  }

  lemma NextLine(header: seq<string>, lines: seq<string>, i: nat)
    requires i < |lines|
    ensures TextOf(header + lines[..i + 1]) == TextOf(header + lines[..i]) + lines[i] + "\n"
  {
    var all := header + lines[..i + 1];
    assert all[..|all| - 1] == header + lines[..i];
  }

  // ---- Which paths and tables the format can carry ----

  /** A path as enumerate_dump lists it, starting with a partition name, whose characters do
      not collide with the format. */
  ghost predicate CleanPath(rel: string) {
    && rel != "" && 'a' <= rel[0] <= 'z' && !IsSpace(rel[|rel| - 1])
    && Free(rel, ';') && Free(rel, '|') && OnOneLine(rel)
  }

  ghost predicate CleanMarks(rel: string, t: Tables) {
    && (rel in t.renames ==> OnOneLine(t.renames[rel]))
    && (rel in t.overrides ==> OnOneLine(t.overrides[rel]))
    && (rel in t.fixSoname ==> OnOneLine(t.fixSoname[rel]) && Free(t.fixSoname[rel], '|'))
  }

  ghost predicate IsHeader(header: seq<string>) {
    forall i :: 0 <= i < |header| ==> OnOneLine(header[i]) && (header[i] == "" || header[i][0] == '#')
  }

  ghost predicate CleanInput(rels: seq<string>, t: Tables) {
    && IsHeader(t.header) && NoRepeats(rels)
    && forall i :: 0 <= i < |rels| ==> CleanPath(rels[i]) && CleanMarks(rels[i], t)
  }

  // ---- Reading an entry line back ----

  lemma LStripStops(s: string)
    requires s != "" && !IsSpace(s[0])
    ensures LStrip(s) == s
  {
  }

  lemma Letters(c: char)
    requires 'a' <= c <= 'z'
    ensures !IsSpace(c) && c != '-' && c != ';' && c != '#'
  {
  }

  lemma BareReadsBack(rest: string)
    requires rest != "" && 'a' <= rest[0] <= 'z' && Strip(Before(rest, '|')) != ""
    ensures Parsed(rest) == Some((Strip(Before(rest, '|')), ""))
  {
    Letters(rest[0]);
    hide Before, Strip, LStrip, IsSpace;
    LStripStops(rest);
  }

  lemma MarkedReadsBack(c: char, rest: string)
    requires (c == '-' || c == ';') && rest != "" && 'a' <= rest[0] <= 'z' && Strip(Before(rest, '|')) != ""
    ensures Parsed([c] + rest) == Some((Strip(Before(rest, '|')), [c]))
  {
    hide *;
    Letters(rest[0]);
    MarkersAreNoSpace();
    LStripStops(rest);
    LStripStops([c] + rest);
    assert ([c] + rest)[1..] == rest;
    ParsedMarked([c] + rest, rest, Strip(Before(rest, '|')));
  }

  lemma MarkersAreNoSpace()
    ensures !IsSpace('-') && !IsSpace(';')
  {
  }

  lemma ParsedMarked(line: string, rest: string, blob: string)
    requires line != "" && (line[0] == '-' || line[0] == ';') && line[1..] == rest
    requires LStrip(line) == line && LStrip(rest) == rest && Strip(Before(rest, '|')) == blob != ""
    ensures Parsed(line) == Some((blob, [line[0]]))
  {
    hide Strip, LStrip, Before;
  }

  /** The marker of a line is recognised whatever follows the first letter of the path. */
  lemma MarkerReadsBack(marker: string, rest: string)
    requires IsMarker(marker) && rest != "" && 'a' <= rest[0] <= 'z' && Strip(Before(rest, '|')) != ""
    ensures Parsed(marker + rest) == Some((Strip(Before(rest, '|')), marker))
  {
    hide Before, Strip, LStrip, IsSpace, Parsed;
    if marker == "" {
      assert marker + rest == rest;
      BareReadsBack(rest);
    } else {
      MarkedReadsBack(marker[0], rest);
      assert marker == [marker[0]];
    }
  }

  lemma StripKeeps(s: string, k: nat)
    requires k < |s| && !IsSpace(s[k]) && !IsSpace(s[0])
    ensures |Strip(s)| > k && Strip(s)[k] == s[k]
  {
    LStripStops(s);
    RStripKeeps(s, k);
  }

  lemma {:induction false} RStripKeeps(s: string, k: nat)
    requires k < |s| && !IsSpace(s[k])
    ensures |RStrip(s)| > k && RStrip(s)[k] == s[k]
  {
    hide IsSpace;
    if IsSpace(s[|s| - 1]) {
      RStripKeeps(s[..|s| - 1], k);
    }
  }

  lemma StripOfClean(rel: string)
    requires CleanPath(rel)
    ensures Strip(rel) == rel
  {
    Letters(rel[0]);
    LStripStops(rel);
  }

  lemma UnmarkedIsBare(rel: string, t: Tables)
    requires CleanPath(rel)
    ensures Marks(rel, t) == "" <==> !Marked(rel, t)
    ensures Before(rel, '|') == rel
  {
  }

  /** The marks of a path show a semicolon before any bar. */
  lemma MarksShowSemicolon(rel: string, t: Tables) returns (k: nat)
    requires Marked(rel, t) && CleanMarks(rel, t)
    ensures k < |Marks(rel, t)| && Marks(rel, t)[k] == ';' && forall i :: 0 <= i <= k ==> Marks(rel, t)[i] != '|'
  {
    k := if rel in t.fixSoname then |t.fixSoname[rel]| + 1 else 0;
  }

  /** An unmarked path is read back under its own name; a marked one never is. */
  lemma EntryReadsBack(rel: string, marker: string, t: Tables)
    requires CleanPath(rel) && CleanMarks(rel, t) && IsMarker(marker)
    ensures var p := Parsed(marker + rel + Marks(rel, t));
            && p.Some? && p.value.1 == marker
            && (if Marked(rel, t) then ';' in p.value.0 else p.value.0 == rel)
  {
    hide *;
    var rest := rel + Marks(rel, t);
    PathStart(rel);
    KeyOfEntry(rel, t);
    MarkerReadsBack(marker, rest);
    assert marker + rel + Marks(rel, t) == marker + rest;
  }

  lemma PathStart(rel: string)
    requires CleanPath(rel)
    ensures rel != "" && 'a' <= rel[0] <= 'z'
  {
  }

  lemma SemicolonIsKept(rel: string, marks: string, k: nat)
    requires CleanPath(rel) && k < |marks| && marks[k] == ';' && forall i :: 0 <= i <= k ==> marks[i] != '|'
    ensures ';' in Strip(Before(rel + marks, '|'))
  {
    var rest := rel + marks;
    var at := |rel| + k;
    assert forall i :: 0 <= i <= at ==> rest[i] != '|';
    var b := Before(rest, '|');
    assert at < |b| && b[at] == rest[at] == ';' && b[0] == rel[0];
    Letters(rel[0]);
    hide Strip, Before, IsSpace, CleanPath;
    StripKeeps(b, at);
    assert Strip(b)[at] in Strip(b);
  }

  lemma KeyOfEntry(rel: string, t: Tables)
    requires CleanPath(rel) && CleanMarks(rel, t)
    ensures var key := Strip(Before(rel + Marks(rel, t), '|'));
            key != "" && if Marked(rel, t) then ';' in key else key == rel
  {
    var rest := rel + Marks(rel, t);
    UnmarkedIsBare(rel, t);
    if Marked(rel, t) {
      var k := MarksShowSemicolon(rel, t);
      hide Marks, Marked, CleanMarks;
      SemicolonIsKept(rel, Marks(rel, t), k);
    } else {
      assert rest == rel;
      StripOfClean(rel);
    }
  }

  function ModuleTag(rel: string, t: Tables): seq<string> {
    if rel in t.renames then ["MODULE=" + t.renames[rel]] else []
  }

  function DepsTag(rel: string, t: Tables): seq<string> {
    if rel in t.disableDeps then ["DISABLE_DEPS"] else []
  }

  function OverridesTag(rel: string, t: Tables): seq<string> {
    if rel in t.overrides then ["OVERRIDES=" + t.overrides[rel]] else []
  }

  /** The marks of a path as a list of tags. */
  function Tags(rel: string, t: Tables): seq<string> {
    if rel in t.fixSoname then [":" + t.fixSoname[rel], "FIX_SONAME"]
    else [""] + ModuleTag(rel, t) + DepsTag(rel, t) + OverridesTag(rel, t)
  }

  ghost predicate NoSemicolons(rel: string, t: Tables) {
    && (rel in t.renames ==> Free(t.renames[rel], ';'))
    && (rel in t.overrides ==> Free(t.overrides[rel], ';'))
    && (rel in t.fixSoname ==> Free(t.fixSoname[rel], ';'))
  }

  lemma JoinTwo(a: string, b: string, sep: string)
    ensures Join([a, b], sep) == a + sep + b
  {
    assert [a, b][1..] == [b];
  }

  /** Adding one tag at the end of a list adds one mark at the end of the line. */
  lemma TagAdded(tags: seq<string>, joined: string, tag: seq<string>, mark: string)
    requires tags != [] && Join(tags, ";") == joined
    requires (tag == [] && mark == "") || (|tag| == 1 && mark == ";" + tag[0])
    ensures Join(tags + tag, ";") == joined + mark
  {
    hide Join;
    if tag == [] {
      assert tags + tag == tags;
    } else {
      assert tag == [tag[0]];
      JoinLast(tags, tag[0], ";");
    }
  }

  lemma MarksAreTags(rel: string, t: Tables)
    ensures var m, tag := ModuleMark(rel, t), ModuleTag(rel, t);
            (tag == [] && m == "") || (|tag| == 1 && m == ";" + tag[0])
    ensures var m, tag := DepsMark(rel, t), DepsTag(rel, t);
            (tag == [] && m == "") || (|tag| == 1 && m == ";" + tag[0])
    ensures var m, tag := OverridesMark(rel, t), OverridesTag(rel, t);
            (tag == [] && m == "") || (|tag| == 1 && m == ";" + tag[0])
  {
    assert rel in t.renames ==> ";MODULE=" + t.renames[rel] == ";" + ("MODULE=" + t.renames[rel]);
    assert rel in t.overrides ==> ";OVERRIDES=" + t.overrides[rel] == ";" + ("OVERRIDES=" + t.overrides[rel]);
  }

  lemma TagsJoined(rel: string, t: Tables)
    ensures Join(Tags(rel, t), ";") == Marks(rel, t)
  {
    hide Join, ModuleTag, DepsTag, OverridesTag, ModuleMark, DepsMark, OverridesMark;
    if rel in t.fixSoname {
      JoinTwo(":" + t.fixSoname[rel], "FIX_SONAME", ";");
    } else {
      OneJoined();
      MarksAreTags(rel, t);
      TagAdded([""], "", ModuleTag(rel, t), ModuleMark(rel, t));
      TagAdded([""] + ModuleTag(rel, t), "" + ModuleMark(rel, t), DepsTag(rel, t), DepsMark(rel, t));
      TagAdded([""] + ModuleTag(rel, t) + DepsTag(rel, t), "" + ModuleMark(rel, t) + DepsMark(rel, t),
               OverridesTag(rel, t), OverridesMark(rel, t));
      assert "" + ModuleMark(rel, t) == ModuleMark(rel, t);
    }
  }

  lemma OneJoined()
    ensures Join([""], ";") == ""
  {
  }

  /** A line tells exactly which tables its path is in and with which values: splitting it at
      semicolons gives the path, behind its marker, and the tags. A new soname hides all others. */
  lemma MarksReadBack(rel: string, marker: string, t: Tables)
    requires CleanPath(rel) && (marker == "" || marker == "-")
    requires (rel in t.renames ==> Free(t.renames[rel], ';')) && (rel in t.overrides ==> Free(t.overrides[rel], ';'))
    requires rel in t.fixSoname ==> Free(t.fixSoname[rel], ';')
    ensures Split(marker + rel + Marks(rel, t), ';') ==
            [marker + rel + Tags(rel, t)[0]] + Tags(rel, t)[1..]
  {
    var head := marker + rel;
    var tags := Tags(rel, t);
    var parts := [head + tags[0]] + tags[1..];
    TagsJoined(rel, t);
    TagsAreFree(rel, t);
    assert Free(head, ';');
    hide Tags, Marks, Join, Split, CleanPath;
    FreeConcat(head, tags[0], ';');
    forall k | 0 <= k < |parts|
      ensures Free(parts[k], ';')
    {
      assert k > 0 ==> parts[k] == tags[k];
    }
    SplitOfJoin(parts, ';');
    HeadJoined(head, tags, ";");
  }

  lemma HeadJoined(head: string, tags: seq<string>, sep: string)
    requires tags != []
    ensures Join([head + tags[0]] + tags[1..], sep) == head + Join(tags, sep)
  {
    var parts := [head + tags[0]] + tags[1..];
    assert parts[1..] == tags[1..];
    if |tags| > 1 {
      assert head + tags[0] + sep + Join(tags[1..], sep) == head + (tags[0] + sep + Join(tags[1..], sep));
    }
  }

  lemma TagsAreFree(rel: string, t: Tables)
    requires NoSemicolons(rel, t)
    ensures Tags(rel, t) != [] && forall k :: 0 <= k < |Tags(rel, t)| ==> Free(Tags(rel, t)[k], ';')
  {
    TagWords();
    hide Free;
    if rel in t.fixSoname {
      FreeConcat(":", t.fixSoname[rel], ';');
    } else {
      if rel in t.renames {
        FreeConcat("MODULE=", t.renames[rel], ';');
      }
      if rel in t.overrides {
        FreeConcat("OVERRIDES=", t.overrides[rel], ';');
      }
    }
  }

  lemma TagWords()
    ensures Free("", ';') && Free(":", ';') && Free("FIX_SONAME", ';') && Free("MODULE=", ';')
    ensures Free("DISABLE_DEPS", ';') && Free("OVERRIDES=", ';')
  {
  }

  // ---- Reading a whole list back ----

  lemma CommentSaysNothing(line: string)
    requires line == "" || line[0] == '#'
    ensures Parsed(line) == None
  {
  }

  lemma HeaderSaysNothing(header: seq<string>, i: nat)
    requires IsHeader(header) && i < |header|
    ensures Parsed(header[i]) == None && OnOneLine(header[i])
  {
    hide Parsed, Free;
    CommentSaysNothing(header[i]);
  }

  lemma TitleSaysNothing(section: string)
    ensures Parsed("# " + section) == None && Parsed("") == None
  {
  }

  /** The items of a layout: entries are exactly the paths, titles fit on a line. */
  lemma LayoutItems(rels: seq<string>, t: Tables)
    requires CleanInput(rels, t)
    ensures forall i :: 0 <= i < |Layout(rels)| && Layout(rels)[i].Entry? ==> Layout(rels)[i].path in rels
    ensures forall i :: 0 <= i < |Layout(rels)| && Layout(rels)[i].Title? ==> OnOneLine(Layout(rels)[i].section)
    ensures forall x :: x in rels ==> exists i :: 0 <= i < |Layout(rels)| && Layout(rels)[i] == Entry(x)
  {
    hide *;
    CleanInputIs(rels, t);
    LayoutIsSorted(rels);
    SameMembers(Paths(Layout(rels)), rels);
    PathsAre(Layout(rels));
    TitlesAre(Layout(rels));
    LayoutTitlesAscend(rels);
    forall s | s in Titles(Layout(rels))
      ensures OnOneLine(s)
    {
      var x :| x in rels && SectionFor(x) == s;
      SectionLeadsPath(x);
      FreePrefix(s, x);
    }
  }

  lemma FreePrefix(s: string, x: string)
    requires s <= x && OnOneLine(x)
    ensures OnOneLine(s)
  {
    assert forall i :: 0 <= i < |s| ==> s[i] == x[i];
  }

  lemma CleanInputIs(rels: seq<string>, t: Tables)
    requires CleanInput(rels, t)
    ensures IsHeader(t.header) && NoRepeats(rels)
    ensures forall x :: x in rels ==> CleanPath(x) && CleanMarks(x, t) && OnOneLine(x) && Free(x, ';')
  {
  }

  lemma {:induction false} PathsAre(items: seq<Item>)
    ensures forall x :: x in Paths(items) <==> exists i :: 0 <= i < |items| && items[i] == Entry(x)
  {
    if items != [] {
      var n := |items| - 1;
      PathsAre(items[..n]);
      assert items == items[..n] + [items[n]];
      assert forall i :: 0 <= i < n ==> items[..n][i] == items[i];
    }
  }

  lemma {:induction false} TitlesAre(items: seq<Item>)
    ensures forall i :: 0 <= i < |items| && items[i].Title? ==> items[i].section in Titles(items)
  {
    if items != [] {
      var n := |items| - 1;
      TitlesAre(items[..n]);
      assert forall i :: 0 <= i < n ==> items[..n][i] == items[i];
    }
  }

  lemma MarkWordsFit()
    ensures OnOneLine("") && OnOneLine(":") && OnOneLine(";FIX_SONAME") && OnOneLine(";MODULE=")
    ensures OnOneLine(";DISABLE_DEPS") && OnOneLine(";OVERRIDES=")
  {
  }

  lemma MarksFitOnLine(rel: string, t: Tables)
    requires CleanMarks(rel, t)
    ensures OnOneLine(Marks(rel, t))
  {
    MarkWordsFit();
    hide OnOneLine;
    if rel in t.fixSoname {
      OneLineConcat(":", t.fixSoname[rel]);
      OneLineConcat(":" + t.fixSoname[rel], ";FIX_SONAME");
    } else {
      if rel in t.renames {
        OneLineConcat(";MODULE=", t.renames[rel]);
      }
      if rel in t.overrides {
        OneLineConcat(";OVERRIDES=", t.overrides[rel]);
      }
      OneLineConcat(ModuleMark(rel, t), DepsMark(rel, t));
      OneLineConcat(ModuleMark(rel, t) + DepsMark(rel, t), OverridesMark(rel, t));
    }
  }

  lemma FreeConcat(a: string, b: string, c: char)
    requires Free(a, c) && Free(b, c)
    ensures Free(a + b, c)
  {
  }

  ghost predicate MarkersOnly(prefixes: map<string, string>) {
    forall x :: IsMarker(Get(prefixes, x))
  }

  lemma LineOfItem(rels: seq<string>, prefixes: map<string, string>, t: Tables, i: nat)
    requires CleanInput(rels, t) && MarkersOnly(prefixes) && i < |Layout(rels)|
    ensures var item, line := Layout(rels)[i], ItemLine(Layout(rels)[i], prefixes, t);
            && OnOneLine(line)
            && (if item.Entry? then
                  && item.path in rels && Parsed(line).Some? && Parsed(line).value.1 == Get(prefixes, item.path)
                  && (if Marked(item.path, t) then ';' in Parsed(line).value.0 else Parsed(line).value.0 == item.path)
                else Parsed(line) == None)
  {
    hide Layout, Parsed, Marks, IsMarker, CleanMarks, CleanPath, CleanInput, MarkersOnly, OnOneLine, Get, Marked;
    LayoutItems(rels, t);
    CleanInputIs(rels, t);
    match Layout(rels)[i]
    case Title(section) =>
      TitleSaysNothing(section);
      assert OnOneLine("# ") by { TwoChars(); }
      OneLineConcat("# ", section);
    case Entry(rel) =>
      MarkerOf(prefixes, rel);
      EntryReadsBack(rel, Get(prefixes, rel), t);
      MarksFitOnLine(rel, t);
      OneLineConcat(Get(prefixes, rel), rel);
      OneLineConcat(Get(prefixes, rel) + rel, Marks(rel, t));
    case Gap =>
      TitleSaysNothing("");
      TwoChars();
  }

  lemma TwoChars()
    ensures OnOneLine("# ") && OnOneLine("")
  {
  }

  lemma MarkerOf(prefixes: map<string, string>, x: string)
    requires MarkersOnly(prefixes)
    ensures IsMarker(Get(prefixes, x)) && OnOneLine(Get(prefixes, x))
  {
    assert IsMarker(Get(prefixes, x));
  }

  lemma LinesFit(rels: seq<string>, prefixes: map<string, string>, t: Tables)
    requires CleanInput(rels, t) && MarkersOnly(prefixes)
    ensures OneLiners(FileLines(rels, prefixes, t))
  {
    hide Layout, Parsed, ItemLine, CleanInput, MarkersOnly, Free, Get;
    var lines := FileLines(rels, prefixes, t);
    CleanInputIs(rels, t);
    forall i | 0 <= i < |lines|
      ensures OnOneLine(lines[i])
    {
      if i < |t.header| {
        HeaderSaysNothing(t.header, i);
      } else {
        LineOfItem(rels, prefixes, t, i - |t.header|);
      }
    }
  }

  /** Loading a printed list reads the very lines printed. */
  lemma TextReadsBack(rels: seq<string>, prefixes: map<string, string>, t: Tables)
    requires CleanInput(rels, t) && MarkersOnly(prefixes)
    ensures LoadedFrom(Some(Emitted(rels, prefixes, t))) == Loaded(FileLines(rels, prefixes, t))
  {
    hide *;
    LinesFit(rels, prefixes, t);
    LinesReadBack(FileLines(rels, prefixes, t));
    LoadedOf(FileLines(rels, prefixes, t));
    EmittedIs(rels, prefixes, t);
  }

  lemma EmittedIs(rels: seq<string>, prefixes: map<string, string>, t: Tables)
    ensures Emitted(rels, prefixes, t) == TextOf(FileLines(rels, prefixes, t))
  {
  }

  /** Unmarked paths keep their marker, marked paths have lost it. */
  lemma ListReadsBack(rels: seq<string>, prefixes: map<string, string>, t: Tables, path: string)
    requires CleanInput(rels, t) && MarkersOnly(prefixes) && path in rels
    ensures var m := Loaded(FileLines(rels, prefixes, t));
            if Marked(path, t) then path !in m else path in m && m[path] == Get(prefixes, path)
  {
    hide Layout, Parsed, ItemLine, CleanInput, MarkersOnly, Free, Get, Marked, Loaded;
    var lines := FileLines(rels, prefixes, t);
    LayoutItems(rels, t);
    CleanInputIs(rels, t);
    forall i | 0 <= i < |lines|
      ensures Parsed(lines[i]).Some? ==>
                i >= |t.header| && Layout(rels)[i - |t.header|].Entry?
                && var rel := Layout(rels)[i - |t.header|].path;
                   && rel in rels && Parsed(lines[i]).value.1 == Get(prefixes, rel)
                   && (if Marked(rel, t) then ';' in Parsed(lines[i]).value.0 else Parsed(lines[i]).value.0 == rel)
    {
      if i < |t.header| {
        HeaderSaysNothing(t.header, i);
      } else {
        LineOfItem(rels, prefixes, t, i - |t.header|);
      }
    }
    assert ';' !in path by { NoSemicolon(path); }
    LoadedWhenUniform(lines, path, Get(prefixes, path));
    if !Marked(path, t) {
      var k :| 0 <= k < |Layout(rels)| && Layout(rels)[k] == Entry(path);
      LineOfItem(rels, prefixes, t, k);
      assert lines[|t.header| + k] == ItemLine(Layout(rels)[k], prefixes, t);
    }
  }

  lemma NoSemicolon(path: string)
    requires Free(path, ';')
    ensures ';' !in path
  {
  }

  // ---- Rerunning ----

  /** One run of the script over a fixed dump: the new list, from the previous one. */
  function Regenerated(rels: seq<string>, file: Option<string>, t: Tables): string {
    Emitted(rels, LoadedFrom(file), t)
  }

  lemma LoadedMarkersOnly(file: Option<string>)
    ensures MarkersOnly(LoadedFrom(file))
  {
    hide Loaded;
    forall x
      ensures IsMarker(Get(LoadedFrom(file), x))
    {
      if file.Some? {
        LoadedMarkers(LinesIn(file.value), x);
      }
    }
  }

  /** The list depends on the old markers of its own paths and on nothing else in the old file. */
  lemma SameMarkersSameList(rels: seq<string>, p: map<string, string>, q: map<string, string>, t: Tables)
    requires CleanInput(rels, t) && forall x :: x in rels ==> Get(p, x) == Get(q, x)
    ensures Emitted(rels, p, t) == Emitted(rels, q, t)
  {
    hide Layout, Get, Marks, CleanInput, TextOf;
    LayoutItems(rels, t);
    assert ItemLines(Layout(rels), p, t) == ItemLines(Layout(rels), q, t);
  }

  lemma SameListSameMarkers(rels: seq<string>, p: map<string, string>, q: map<string, string>, t: Tables, x: string)
    requires CleanInput(rels, t) && MarkersOnly(p) && MarkersOnly(q)
    requires Emitted(rels, p, t) == Emitted(rels, q, t) && x in rels
    ensures Get(p, x) == Get(q, x)
  {
    hide Layout, Get, Marks, CleanInput, TextOf, MarkersOnly, LinesIn, OneLiners;
    LayoutItems(rels, t);
    LinesFit(rels, p, t);
    LinesFit(rels, q, t);
    LinesReadBack(FileLines(rels, p, t));
    LinesReadBack(FileLines(rels, q, t));
    var k :| 0 <= k < |Layout(rels)| && Layout(rels)[k] == Entry(x);
    assert FileLines(rels, p, t)[|t.header| + k] == Get(p, x) + x + Marks(x, t);
    assert FileLines(rels, q, t)[|t.header| + k] == Get(q, x) + x + Marks(x, t);
    SameHead(Get(p, x), Get(q, x), x, Marks(x, t));
  }

  lemma SameHead(a: string, b: string, x: string, rest: string)
    requires a + x + rest == b + x + rest
    ensures a == b
  {
    assert |a + x + rest| == |a| + |x| + |rest| && |b + x + rest| == |b| + |x| + |rest|;
    assert a == (a + x + rest)[..|a|] && b == (b + x + rest)[..|b|];
  }

  /** Whatever the list looked like before, two runs reach a list that every later run
      reproduces. One run is enough exactly when no marked path carried a marker; an unmarked
      path keeps its marker through every run, a marked one has lost it after the first. */
  lemma RegenerationSettles(rels: seq<string>, file: Option<string>, t: Tables)
    requires CleanInput(rels, t)
    ensures var first := Regenerated(rels, file, t);
            var second := Regenerated(rels, Some(first), t);
            && Regenerated(rels, Some(second), t) == second
            && (second == first <==> forall x :: x in rels && Marked(x, t) ==> Get(LoadedFrom(file), x) == "")
    ensures var first := Regenerated(rels, file, t);
            forall x :: x in rels ==>
              Get(LoadedFrom(Some(first)), x) == if Marked(x, t) then "" else Get(LoadedFrom(file), x)
  {
    hide CleanInput, MarkersOnly, Marked, Emitted, LoadedFrom, Loaded, FileLines;
    var p0 := LoadedFrom(file);
    var first := Regenerated(rels, file, t);
    var p1 := LoadedFrom(Some(first));
    var second := Regenerated(rels, Some(first), t);
    var p2 := LoadedFrom(Some(second));
    LoadedMarkersOnly(file);
    LoadedMarkersOnly(Some(first));
    TextReadsBack(rels, p0, t);
    TextReadsBack(rels, p1, t);
    forall x | x in rels
      ensures Get(p1, x) == if Marked(x, t) then "" else Get(p0, x)
      ensures Get(p2, x) == if Marked(x, t) then "" else Get(p1, x)
    {
      ListReadsBack(rels, p0, t, x);
      ListReadsBack(rels, p1, t, x);
    }
    SameMarkersSameList(rels, p1, p2, t);
    if second == first {
      forall x | x in rels && Marked(x, t)
        ensures Get(p0, x) == ""
      {
        SameListSameMarkers(rels, p0, p1, t, x);
      }
    }
    if forall x :: x in rels && Marked(x, t) ==> Get(p0, x) == "" {
      SameMarkersSameList(rels, p0, p1, t);
    }
  }

  /** So a rerun does not always yield the same file: for every list with a marked path there
      is a previous list after which the first two runs differ. */
  lemma RerunCanDiffer(rels: seq<string>, t: Tables, x: string) returns (file: string)
    requires CleanInput(rels, t) && x in rels && Marked(x, t)
    ensures var first := Regenerated(rels, Some(file), t);
            Regenerated(rels, Some(first), t) != first
  {
    CleanInputIs(rels, t);
    file := TextOf(["-" + x]);
    OneOldLine(x);
    hide *;
    RegenerationSettles(rels, Some(file), t);
  }

  lemma OneOldLine(x: string)
    requires CleanPath(x)
    ensures Get(LoadedFrom(Some(TextOf(["-" + x]))), x) == "-"
  {
    var line := "-" + x;
    PlainLine(x);
    hide *;
    LinesReadBack([line]);
    OneLineLoaded(line, x);
    LoadedOf([line]);
  }

  lemma PlainLine(x: string)
    requires CleanPath(x)
    ensures Parsed("-" + x) == Some((x, "-")) && OneLiners(["-" + x])
  {
    hide *;
    PathStart(x);
    StripOfClean(x);
    UnmarkedIsBare(x, Tables([], map[], {}, map[], map[]));
    MarkedReadsBack('-', x);
    OneLine(x);
  }

  lemma OneLine(x: string)
    requires CleanPath(x)
    ensures OneLiners(["-" + x])
  {
  }

  lemma OneLineLoaded(line: string, x: string)
    requires Parsed(line) == Some((x, "-"))
    ensures Get(Loaded([line]), x) == "-"
  {
    hide Parsed;
    assert [line][..0] == [];
  }

  lemma LoadedOf(lines: seq<string>)
    requires LinesIn(TextOf(lines)) == lines
    ensures LoadedFrom(Some(TextOf(lines))) == Loaded(lines)
  {
    hide LinesIn, TextOf, Loaded;
  }

  /** The same dump walked in another order gives the same list. */
  lemma ListDependsOnMembers(a: seq<string>, b: seq<string>, prefixes: map<string, string>, t: Tables)
    requires NoRepeats(a) && NoRepeats(b) && forall x :: x in a <==> x in b
    ensures Emitted(a, prefixes, t) == Emitted(b, prefixes, t)
  {
    hide Layout, TextOf;
    LayoutDependsOnMembers(a, b);
  }

  // ---- Lines written out ----

  /** A path in all three tables but the last, one in the last, and the lines around them. */
  lemma LinesAreSpelled(rel: string, section: string, prefixes: map<string, string>, t: Tables)
    ensures rel in t.renames && rel in t.disableDeps && rel in t.overrides && rel !in t.fixSoname ==>
              ItemLine(Entry(rel), prefixes, t) ==
              (if rel in prefixes then prefixes[rel] else "") + rel
              + (";MODULE=" + t.renames[rel] + ";DISABLE_DEPS" + (";OVERRIDES=" + t.overrides[rel]))
    ensures rel in t.fixSoname ==>
              ItemLine(Entry(rel), prefixes, t) ==
              (if rel in prefixes then prefixes[rel] else "") + rel + (":" + t.fixSoname[rel] + ";FIX_SONAME")
    ensures rel !in t.renames && rel !in t.disableDeps && rel !in t.overrides && rel !in t.fixSoname ==>
              ItemLine(Entry(rel), prefixes, t) == (if rel in prefixes then prefixes[rel] else "") + rel
    ensures ItemLine(Title(section), prefixes, t) == "# " + section && ItemLine(Gap, prefixes, t) == ""
  {
  }

  /** What the lines of an old list say: a path with its marker, white space and a pinned hash
      allowed, or nothing. */
  lemma OldLinesAreRead(rel: string, hash: string)
    requires CleanPath(rel)
    ensures Parsed(rel) == Parsed(rel + "|" + hash) == Some((rel, ""))
    ensures Parsed("-" + rel) == Parsed("- " + rel) == Parsed("-" + rel + "|" + hash) == Some((rel, "-"))
    ensures Parsed(";" + rel) == Some((rel, ";"))
    ensures Parsed("# " + rel) == Parsed("") == None
  {
    PathStart(rel);
    StripOfClean(rel);
    BarEnds(rel, hash);
    CommentSaysNothing("# " + rel);
    CommentSaysNothing("");
    assert "-" == ['-'] && ";" == [';'];
    hide *;
    BarredIs(rel, hash);
    BareReadsBack(rel);
    BareReadsBack(rel + "|" + hash);
    MarkedReadsBack('-', rel);
    MarkedReadsBack(';', rel);
    MarkedReadsBack('-', rel + "|" + hash);
    BlankBehindMarker(rel);
  }

  /** White space in front of a line counts for nothing. */
  lemma IndentIsIgnored(line: string)
    requires line != "" && line[0] != '#'
    ensures Parsed([' '] + line) == Parsed(line)
  {
    assert IsSpace(' ') && ([' '] + line)[1..] == line;
    hide IsSpace, Strip, Before;
    assert LStrip([' '] + line) == LStrip(line);
  }

  lemma BarredIs(rel: string, hash: string)
    ensures "-" + rel + "|" + hash == ['-'] + (rel + "|" + hash)
  {
  }

  lemma BarEnds(rel: string, hash: string)
    requires CleanPath(rel)
    ensures Before(rel, '|') == Before(rel + "|" + hash, '|') == rel
    ensures (rel + "|" + hash) != "" && 'a' <= (rel + "|" + hash)[0] <= 'z'
  {
    var s := rel + "|" + hash;
    assert s[|rel|] == '|' && forall i :: 0 <= i < |rel| ==> s[i] == rel[i];
    assert FindChar(s, '|') == |rel|;
  }

  lemma BlankBehindMarker(rel: string)
    requires rel != "" && 'a' <= rel[0] <= 'z' && Before(rel, '|') == rel && Strip(rel) == rel
    ensures Parsed("- " + rel) == Some((rel, "-"))
  {
    var line := "- " + rel;
    Letters(rel[0]);
    MarkersAreNoSpace();
    hide Strip, Before;
    LStripStops(line);
    LStripStops(rel);
    assert line[0] == '-' && line[1..] == " " + rel && IsSpace(' ') && (" " + rel)[1..] == rel;
    hide IsSpace;
    assert LStrip(" " + rel) == LStrip(rel);
  }
}
