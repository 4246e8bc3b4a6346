/** The generated makefile that copies the bypassed files (closure.py, emit_pcf_bypass_mk). */
module BypassMakefile {
  import opened Text
  import opened Sorting
  import opened Grouping

  // ---- Groups by the first two path components ----

  /** '/'.join(rel.split('/')[:2]) */
  function TopOf(rel: string): string {
    var parts := Split(rel, '/');
    Join(if |parts| <= 2 then parts else parts[..2], "/")
  }

  predicate Below(path: string, dir: string) {
    dir + "/" <= path
  }

  /** No file's path is a directory of another file's path, as in every directory tree. */
  ghost predicate IsTree(rels: seq<string>) {
    forall a, b :: a in rels && b in rels ==> !Below(b, a)
  }

  /** A path either is its own group's name or lies below a directory of two components. */
  lemma TopCases(rel: string)
    ensures TopOf(rel) == rel || (Below(rel, TopOf(rel)) && |Split(TopOf(rel), '/')| == 2)
  {
    hide Split, Join;
    SplitParts(rel, '/');
    var parts := Split(rel, '/');
    if |parts| > 2 {
      JoinConcat(parts[..2], parts[2..], "/");
      assert parts == parts[..2] + parts[2..];
      forall k | 0 <= k < 2
        ensures Free(parts[..2][k], '/')
      {
        assert parts[..2][k] == parts[k];
      }
      SplitOfJoin(parts[..2], '/');
    }
  }

  lemma TopUnder(top: string, rel: string)
    requires |Split(top, '/')| == 2 && Below(rel, top)
    ensures TopOf(rel) == top
  {
    hide Split, Join;
    var rest := rel[|top| + 1..];
    assert rel == top + "/" + rest;
    SplitConcat(top, rest, '/');
    SplitParts(top, '/');
    assert Split(rel, '/')[..2] == Split(top, '/');
  }

  /** Whatever lies between two paths of one group belongs to it. */
  lemma TopIsConvex(rels: seq<string>, a: string, b: string, c: string)
    requires IsTree(rels) && a in rels && c in rels && Less(a, b) && Less(b, c)
    requires TopOf(a) == TopOf(c)
    ensures TopOf(b) == TopOf(a)
  {
    hide TopOf, Split, Less;
    var top := TopOf(a);
    TopCases(a);
    TopCases(c);
    LessIsTotal(a, c);
    LessIsTransitive(a, b, c);
    if Below(a, top) && Below(c, top) {
      PrefixIsConvex(top + "/", a, b, c);
      TopUnder(top, b);
    }
  }

  lemma AscendingTreeIsContiguous(rels: seq<string>)
    requires IsTree(rels) && Ascending(rels, Less)
    ensures Contiguous(rels, TopOf)
  {
    hide TopOf, Less, IsTree;
    forall i, j, k | 0 <= i < j < k < |rels| && TopOf(rels[i]) == TopOf(rels[k])
      ensures TopOf(rels[j]) == TopOf(rels[i])
    {
      TopIsConvex(rels, rels[i], rels[j], rels[k]);
    }
  }

  /** Flattening the groups of the sorted list gives back the sorted list. */
  lemma GroupingPreservesOrder(rels: seq<string>)
    requires IsTree(rels) && Ascending(rels, Less)
    ensures Regrouped(rels, TopOf, KeysOf(rels, TopOf)) == rels
  {
    hide TopOf, Less, IsTree, Regrouped, KeysOf, Contiguous, Ascending;
    AscendingTreeIsContiguous(rels);
    GroupingKeepsOrderIff(rels, TopOf);
  }

  // ---- The makefile ----

  const SOURCE_ROOT := "vendor/nubia/NX809J/proprietary/"
  const TARGET_ROOT := "$(TARGET_COPY_OUT_VENDOR)/"
  const PARTITION := "vendor/"
  const ASSIGNMENT := "PRODUCT_COPY_FILES += \\"

  function Target(rel: string): string {
    TARGET_ROOT + (if PARTITION <= rel then rel[|PARTITION|..] else rel)
  }

  function CopyOf(rel: string): string {
    SOURCE_ROOT + rel + ":" + Target(rel)
  }

  function GroupTitle(top: string, count: nat): string {
    "# " + top + "/ \U{2014} " + Dec(count) + " files"
  }

  /** The entry lines of a group: all but the last are continued. */
  function EntryLines(files: seq<string>): (lines: seq<string>)
    ensures |lines| == |files|
    ensures forall i :: 0 <= i < |files| ==>
              lines[i] == "    " + CopyOf(files[i]) + (if i == |files| - 1 then "" else " \\")
  {
    seq(|files|, i requires 0 <= i < |files| => "    " + CopyOf(files[i]) + (if i < |files| - 1 then " \\" else ""))
  }

  /** One group: a comment, the assignment, an entry a line, all but the last continued. */
  function GroupLines(top: string, files: seq<string>): seq<string> {
    [GroupTitle(top, |files|), ASSIGNMENT] + EntryLines(files) + [""]
  }

  function AllLines(rels: seq<string>, keys: seq<string>): seq<string> {
    if keys == [] then []
    else
      var n := |keys| - 1;
      AllLines(rels, keys[..n]) + GroupLines(keys[n], GroupOf(rels, TopOf, keys[n]))
  }

  /** Comment lines, then the groups of the sorted files. */
  function MakeLines(header: seq<string>, rels: seq<string>): seq<string> {
    header + AllLines(rels, KeysOf(rels, TopOf))
  }

  method EmitGroup(top: string, files: seq<string>) returns (lines: seq<string>)
    ensures lines == GroupLines(top, files)
  {
    hide CopyOf, GroupTitle;
    lines := [GroupTitle(top, |files|), ASSIGNMENT];
    ghost var entries := EntryLines(files);
    for i := 0 to |files|
      invariant lines == [GroupTitle(top, |files|), ASSIGNMENT] + entries[..i]
    {
      var trailing := if i < |files| - 1 then " \\" else "";
      assert entries[..i + 1] == entries[..i] + [entries[i]];
      lines := lines + ["    " + CopyOf(files[i]) + trailing];
    }
    assert entries[..|files|] == entries;
    lines := lines + [""];
  }

  method EmitBypassMakefile(header: seq<string>, rels: seq<string>) returns (lines: seq<string>, count: nat)
    ensures lines == MakeLines(header, rels) && count == |rels|
  {
    hide TopOf, GroupOf, KeysOf, NoRepeats, GroupLines;
    lines := header;
    var keys, groups := GroupBy(rels, TopOf);
    for k := 0 to |keys|
      invariant lines == header + AllLines(rels, keys[..k])
    {
      assert keys[..k + 1][..k] == keys[..k];
      assert keys[k] in keys;
      var group := EmitGroup(keys[k], groups[keys[k]]);
      lines := lines + group;
    }
    assert keys[..|keys|] == keys;
    count := |rels|;
  }

  // ---- Reading the makefile back ----

  predicate Continued(line: string) {
    line != "" && line[|line| - 1] == '\\'
  }

  function Content(line: string): string {
    Strip(if Continued(line) then line[..|line| - 1] else line)
  }

  /** The entries of all copy assignments: after the assignment line, every line up to and
      including the first one that is not continued. Nothing is dropped on the way, so a missing
      or an extra continuation mark would show. */
  function ReadCopies(lines: seq<string>, within: bool): seq<string>
    decreases |lines|
  {
    if lines == [] then []
    else if within then [Content(lines[0])] + ReadCopies(lines[1..], Continued(lines[0]))
    else ReadCopies(lines[1..], lines[0] == ASSIGNMENT)
  }

  function Copies(rels: seq<string>): (copies: seq<string>)
    ensures |copies| == |rels| && forall i :: 0 <= i < |rels| ==> copies[i] == CopyOf(rels[i])
  {
    seq(|rels|, i requires 0 <= i < |rels| => CopyOf(rels[i]))
  }

  /** A file name that ends neither in white space nor in the continuation mark. */
  predicate EndsPlainly(rel: string) {
    rel != "" && !IsSpace(rel[|rel| - 1]) && rel[|rel| - 1] != '\\'
  }

  lemma StripSpaces(s: string, after: string)
    requires after == "" || after == " "
    requires s != "" && !IsSpace(s[0]) && !IsSpace(s[|s| - 1])
    ensures Strip("    " + s + after) == s
  {
    hide *;
    assert "    " + s + after == " " + (" " + (" " + (" " + (s + after))));
    StripsOneSpace(s + after);
    StripsOneSpace(" " + (s + after));
    StripsOneSpace(" " + (" " + (s + after)));
    StripsOneSpace(" " + (" " + (" " + (s + after))));
    NothingToStrip(s, after);
  }

  lemma StripsOneSpace(s: string)
    ensures Strip(" " + s) == Strip(s)
  {
    hide RStrip;
    assert IsSpace(' ') && (" " + s)[1..] == s;
    hide IsSpace;
    assert LStrip(" " + s) == LStrip(s);
  }

  lemma NothingToStrip(s: string, after: string)
    requires after == "" || after == " "
    requires s != "" && !IsSpace(s[0]) && !IsSpace(s[|s| - 1])
    ensures Strip(s + after) == s
  {
    var t := s + after;
    assert IsSpace(' ') && t[0] == s[0];
    hide IsSpace;
    assert LStrip(t) == t;
    assert RStrip(s) == s;
    if after == " " {
      assert t[|t| - 1] == ' ' && t[..|t| - 1] == s;
      assert RStrip(t) == RStrip(s);
    } else {
      assert t == s;
    }
  }

  lemma LiteralEnds()
    ensures |SOURCE_ROOT| > 0 && SOURCE_ROOT[0] == 'v' && |ASSIGNMENT| > 0 && ASSIGNMENT[0] == 'P'
    ensures |TARGET_ROOT| > 0 && TARGET_ROOT[|TARGET_ROOT| - 1] == '/'
  {
  }

  lemma CopyShape(rel: string)
    requires EndsPlainly(rel)
    ensures var c := CopyOf(rel);
            c != "" && !IsSpace(c[0]) && !IsSpace(c[|c| - 1]) && c[|c| - 1] != '\\'
  {
    var c := CopyOf(rel);
    LiteralEnds();
    assert c[0] == SOURCE_ROOT[0];
    var t := Target(rel);
    assert t[|t| - 1] == c[|c| - 1];
    if PARTITION <= rel {
      if |rel| > |PARTITION| {
        assert t[|t| - 1] == rel[|rel| - 1];
      } else {
        assert t == TARGET_ROOT;
        assert t[|t| - 1] == '/';
      }
    } else {
      assert t[|t| - 1] == rel[|rel| - 1];
    }
  }

  /** An entry line gives its entry back and is continued exactly when it is not the last. */
  lemma EntryLineReadsBack(rel: string, last: bool)
    requires EndsPlainly(rel)
    ensures var line := "    " + CopyOf(rel) + (if last then "" else " \\");
            Content(line) == CopyOf(rel) && (Continued(line) <==> !last)
  {
    hide CopyOf, Strip, IsSpace, EndsPlainly;
    var c := CopyOf(rel);
    CopyShape(rel);
    if last {
      var line := "    " + c + "";
      assert line[|line| - 1] == c[|c| - 1];
      StripSpaces(c, "");
    } else {
      var line := "    " + c + " \\";
      assert line[..|line| - 1] == "    " + c + " ";
      StripSpaces(c, " ");
    }
  }

  lemma {:induction false} EntriesReadBack(lines: seq<string>, files: seq<string>, after: seq<string>)
    requires files != [] && |lines| == |files| && forall i :: 0 <= i < |files| ==> EndsPlainly(files[i])
    requires forall i :: 0 <= i < |files| ==>
               lines[i] == "    " + CopyOf(files[i]) + (if i == |files| - 1 then "" else " \\")
    ensures ReadCopies(lines + after, true) == Copies(files) + ReadCopies(after, false)
    decreases |files|
  {
    hide CopyOf, EndsPlainly, Content, Continued;
    EntryLineReadsBack(files[0], |files| == 1);
    assert (lines + after)[1..] == lines[1..] + after && (lines + after)[0] == lines[0];
    if |files| == 1 {
      assert lines[1..] + after == after;
    } else {
      EntriesReadBack(lines[1..], files[1..], after);
      assert Copies(files) == [CopyOf(files[0])] + Copies(files[1..]);
    }
  }

  lemma TitleIsNoAssignment(top: string, count: nat)
    ensures GroupTitle(top, count) != ASSIGNMENT && "" != ASSIGNMENT
  {
    assert GroupTitle(top, count)[0] == '#';
    LiteralEnds();
  }

  lemma GroupReadsBack(top: string, files: seq<string>, after: seq<string>)
    requires files != [] && forall i :: 0 <= i < |files| ==> EndsPlainly(files[i])
    ensures ReadCopies(GroupLines(top, files) + after, false) == Copies(files) + ReadCopies(after, false)
  {
    hide *;
    var title, entries := GroupTitle(top, |files|), EntryLines(files);
    TitleIsNoAssignment(top, |files|);
    GroupLinesAre(top, files, after);
    ReadOver(title, [ASSIGNMENT] + (entries + ([""] + after)));
    ReadOver(ASSIGNMENT, entries + ([""] + after));
    EntriesReadBack(entries, files, [""] + after);
    ReadOver("", after);
  }

  lemma GroupLinesAre(top: string, files: seq<string>, after: seq<string>)
    ensures GroupLines(top, files) + after ==
            [GroupTitle(top, |files|)] + ([ASSIGNMENT] + (EntryLines(files) + ([""] + after)))
  {
    hide GroupTitle, EntryLines;
  }

  lemma ReadOver(line: string, rest: seq<string>)
    ensures ReadCopies([line] + rest, false) == ReadCopies(rest, line == ASSIGNMENT)
  {
    assert ([line] + rest)[1..] == rest;
  }

  lemma {:induction false} HeaderReadsOver(header: seq<string>, rest: seq<string>)
    requires ASSIGNMENT !in header
    ensures ReadCopies(header + rest, false) == ReadCopies(rest, false)
  {
    if header == [] {
      assert header + rest == rest;
    } else {
      assert header + rest == [header[0]] + (header[1..] + rest);
      ReadOver(header[0], header[1..] + rest);
      HeaderReadsOver(header[1..], rest);
    }
  }

  lemma {:induction false} GroupsReadBack(rels: seq<string>, keys: seq<string>, after: seq<string>)
    requires forall i :: 0 <= i < |rels| ==> EndsPlainly(rels[i])
    requires forall k :: k in keys ==> k in KeysOf(rels, TopOf)
    ensures ReadCopies(AllLines(rels, keys) + after, false) ==
            Copies(Regrouped(rels, TopOf, keys)) + ReadCopies(after, false)
    decreases |keys|
  {
    hide CopyOf, EndsPlainly, TopOf, GroupLines, ReadCopies, KeysOf;
    if keys == [] {
      assert AllLines(rels, keys) + after == after;
    } else {
      var n := |keys| - 1;
      var group := GroupOf(rels, TopOf, keys[n]);
      var rest := GroupLines(keys[n], group) + after;
      assert AllLines(rels, keys) + after == AllLines(rels, keys[..n]) + rest;
      GroupIsUsable(rels, keys[n]);
      GroupsReadBack(rels, keys[..n], rest);
      GroupReadsBack(keys[n], group, after);
      var before := Regrouped(rels, TopOf, keys[..n]);
      assert Copies(before + group) == Copies(before) + Copies(group);
    }
  }

  lemma GroupIsUsable(rels: seq<string>, k: string)
    requires forall i :: 0 <= i < |rels| ==> EndsPlainly(rels[i])
    requires k in KeysOf(rels, TopOf)
    ensures GroupOf(rels, TopOf, k) != []
    ensures forall i :: 0 <= i < |GroupOf(rels, TopOf, k)| ==> EndsPlainly(GroupOf(rels, TopOf, k)[i])
  {
    hide EndsPlainly, TopOf, NoRepeats;
    GroupMembers(rels, TopOf, k);
    var g := GroupOf(rels, TopOf, k);
    var x :| x in rels && TopOf(x) == k;
    assert x in g;
    assert forall i :: 0 <= i < |g| ==> g[i] in rels;
  }

  /** The makefile copies every file exactly once, in sorted order, whatever the groups: no entry
      is lost or run together at a group boundary. */
  lemma MakefileReadsBack(header: seq<string>, rels: seq<string>)
    requires ASSIGNMENT !in header
    requires IsTree(rels) && Ascending(rels, Less) && forall i :: 0 <= i < |rels| ==> EndsPlainly(rels[i])
    ensures ReadCopies(MakeLines(header, rels), false) == Copies(rels)
  {
    hide CopyOf, EndsPlainly, TopOf, AllLines, ReadCopies, KeysOf, Regrouped, IsTree, Ascending, Less;
    var lines := AllLines(rels, KeysOf(rels, TopOf));
    HeaderReadsOver(header, lines);
    GroupsReadBack(rels, KeysOf(rels, TopOf), []);
    assert lines + [] == lines;
    GroupingPreservesOrder(rels);
    assert ReadCopies([], false) == [] by { NothingToRead(); }
  }

  lemma NothingToRead()
    ensures ReadCopies([], false) == []
  {
  }

  /** Two entries install to the same place exactly when they are the same file, or one is the
      other's path without the partition name. */
  lemma TargetsCollideIff(a: string, b: string)
    ensures Target(a) == Target(b) <==>
            a == b
            || (PARTITION + b == a && !(PARTITION <= b)) || (PARTITION + a == b && !(PARTITION <= a))
  {
    var x, y := (if PARTITION <= a then a[|PARTITION|..] else a), (if PARTITION <= b then b[|PARTITION|..] else b);
    SameTail(TARGET_ROOT, x, y);
    assert PARTITION <= a ==> a == PARTITION + x;
    assert PARTITION <= b ==> b == PARTITION + y;
    SameTail(PARTITION, x, y);
  }

  // ---- The lines written out ----

  /** A file of the vendor partition is copied from the vendor tree to the same place in the vendor
      image; any other path keeps its partition name below the image. */
  lemma CopyIsSpelled(x: string, rel: string)
    ensures CopyOf("vendor/" + x) ==
            "vendor/nubia/NX809J/proprietary/" + ("vendor/" + x) + ":" + ("$(TARGET_COPY_OUT_VENDOR)/" + x)
    ensures !("vendor/" <= rel) ==>
              CopyOf(rel) == "vendor/nubia/NX809J/proprietary/" + rel + ":" + ("$(TARGET_COPY_OUT_VENDOR)/" + rel)
  {
    assert ("vendor/" + x)[|PARTITION|..] == x;
  }

  /** The file a group is named after: its first two components, or itself. */
  lemma TopIsSpelled(a: string, b: string, rest: string)
    requires Free(a, '/') && Free(b, '/')
    ensures TopOf(a + "/" + b + "/" + rest) == a + "/" + b
    ensures TopOf(a + "/" + b) == a + "/" + b && TopOf(a) == a
  {
    TwoParts(a, b);
    hide Split;
    SplitConcat(a + "/" + b, rest, '/');
    assert a + "/" + b + ['/'] + rest == a + "/" + b + "/" + rest;
    assert Split(a + "/" + b + "/" + rest, '/')[..2] == [a, b];
    OnePart(a);
  }

  lemma OnePart(a: string)
    requires Free(a, '/')
    ensures Split(a, '/') == [a] && Join([a], "/") == a
  {
    assert FindChar(a, '/') == -1;
  }

  lemma TwoParts(a: string, b: string)
    requires Free(a, '/') && Free(b, '/')
    ensures Split(a + "/" + b, '/') == [a, b] && Join([a, b], "/") == a + "/" + b
  {
    OnePart(a);
    OnePart(b);
    SplitConcat(a, b, '/');
    assert [a, b][1..] == [b];
  }

  /** A group of two files as it stands in the makefile; every group has this shape, with more
      continued lines in between. */
  lemma GroupIsSpelled(top: string, x: string, y: string)
    ensures var root, image := "vendor/nubia/NX809J/proprietary/", "$(TARGET_COPY_OUT_VENDOR)/";
            GroupLines(top, ["vendor/" + x, "vendor/" + y]) ==
            ["# " + top + "/ \U{2014} " + "2" + " files",
             "PRODUCT_COPY_FILES += \\",
             "    " + (root + ("vendor/" + x) + ":" + (image + x)) + " \\",
             "    " + (root + ("vendor/" + y) + ":" + (image + y)),
             ""]
  {
    var files := ["vendor/" + x, "vendor/" + y];
    CopyIsSpelled(x, "");
    CopyIsSpelled(y, "");
    TwoFiles(top);
    hide CopyOf, GroupTitle;
    var lines := EntryLines(files);
    assert lines[0] == "    " + CopyOf(files[0]) + " \\";
    assert lines[1] == "    " + CopyOf(files[1]) + "" == "    " + CopyOf(files[1]);
    assert lines == [lines[0], lines[1]];
  }

  lemma TwoFiles(top: string)
    ensures GroupTitle(top, 2) == "# " + top + "/ \U{2014} " + "2" + " files"
  {
    assert Dec(2) == "2";
  }
}
