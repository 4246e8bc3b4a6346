/** The layout of the blob list (closure.py, section_for and the grouping in
    emit_proprietary_files): which section a path belongs to, and the order of sections and paths. */
module BlobSections {
  import opened Text
  import opened Grouping
  import opened Sorting

  // ---- section_for ----

  const LIBRARY_DIRS: seq<string> :=
    ["hw", "camera", "soundfx", "mediadrm", "egl", "drm", "rfsa", "vndk-sp", "mediacas"]

  /** The number of leading path components that make the section's name. */
  function SectionDepth(parts: seq<string>): (k: nat)
    requires parts != []
    ensures 1 <= k <= 3 && k <= |parts|
  {
    if |parts| >= 3 && parts[0] == "vendor" then
      var sub := parts[1];
      if sub == "etc" then (if |parts| > 3 && parts[2] != "" then 3 else 2)
      else if sub == "lib" || sub == "lib64" then (if |parts| > 3 && parts[2] in LIBRARY_DIRS then 3 else 2)
      else if sub == "bin" then (if |parts| > 3 && parts[2] == "hw" then 3 else 2)
      else 2
    else if parts[0] == "etc" || parts[0] == "odm" || parts[0] == "system" then
      if |parts| > 1 then 2 else 1
    else 1
  }

  function SectionFor(rel: string): string {
    var parts := Split(rel, '/');
    Join(parts[..SectionDepth(parts)], "/")
  }

  lemma {:induction false} JoinPrefix(parts: seq<string>, k: nat, sep: string)
    requires 1 <= k <= |parts|
    ensures Join(parts[..k], sep) <= Join(parts, sep)
  {
    if k == 1 {
      assert parts[..1] == [parts[0]];
    } else {
      assert parts[..k][1..] == parts[1..][..k - 1];
      JoinPrefix(parts[1..], k - 1, sep);
    }
  }

  /** A section is named after leading directories of its paths. */
  lemma SectionLeadsPath(rel: string)
    ensures SectionFor(rel) <= rel
  {
    var parts := Split(rel, '/');
    SplitParts(rel, '/');
    JoinPrefix(parts, SectionDepth(parts), "/");
  }

  // ---- section_sort_key ----

  const SECTION_ORDER: seq<string> := [
    "vendor/etc", "vendor/etc/init", "vendor/etc/vintf",
    "vendor/etc/permissions", "vendor/etc/audio", "vendor/etc/seccomp_policy",
    "vendor/lib", "vendor/lib/hw", "vendor/lib/egl", "vendor/lib/drm",
    "vendor/lib/soundfx", "vendor/lib/mediadrm", "vendor/lib/vndk-sp",
    "vendor/lib64", "vendor/lib64/hw", "vendor/lib64/camera",
    "vendor/lib64/soundfx", "vendor/lib64/drm", "vendor/lib64/mediadrm",
    "vendor/lib64/mediacas", "vendor/lib64/vndk-sp", "vendor/lib64/rfsa",
    "vendor/bin", "vendor/bin/hw",
    "vendor/firmware", "vendor/firmware_mnt", "vendor/dsp", "vendor/rfs",
    "vendor/bt_firmware", "vendor/soccp_firmware",
    "vendor/app", "vendor/priv-app", "vendor/overlay",
    "vendor/qprof", "vendor/odm_dlkm"]

  /** order.index(s), or the length of the list when s is not in it. */
  function RankIn(order: seq<string>, s: string): (r: nat)
    ensures r <= |order| && (r < |order| ==> order[r] == s)
  {
    if order == [] || order[0] == s then 0 else 1 + RankIn(order[1..], s)
  }

  /** Listed sections first, in the order listed; the others after them, by name. */
  predicate SectionLess(a: string, b: string) {
    var i, j := RankIn(SECTION_ORDER, a), RankIn(SECTION_ORDER, b);
    i < j || (i == j && Less(a, b))
  }

  lemma SectionLessIsOrder()
    ensures IsOrder(SectionLess)
  {
    hide RankIn, Less;
    forall a, b
      ensures a == b || SectionLess(a, b) || SectionLess(b, a)
      ensures a == b ==> !SectionLess(a, b)
    {
      LessIsTotal(a, b);
    }
    forall a, b, c | SectionLess(a, b) && SectionLess(b, c)
      ensures SectionLess(a, c)
    {
      if Less(a, b) && Less(b, c) {
        LessIsTransitive(a, b, c);
      }
    }
  }

  /** By section, then by path. */
  predicate PathLess(a: string, b: string) {
    var s, t := SectionFor(a), SectionFor(b);
    SectionLess(s, t) || (s == t && Less(a, b))
  }

  lemma PathLessIsOrder()
    ensures IsOrder(PathLess)
  {
    hide SectionLess, SectionFor, Less;
    SectionLessIsOrder();
    LessIsOrder();
  }

  // ---- The layout ----

  datatype Item = Title(section: string) | Entry(path: string) | Gap

  function Entries(paths: seq<string>): (items: seq<Item>)
    ensures |items| == |paths| && forall i :: 0 <= i < |paths| ==> items[i] == Entry(paths[i])
  {
    seq(|paths|, i requires 0 <= i < |paths| => Entry(paths[i]))
  }

  function Group(rels: seq<string>, section: string): seq<Item> {
    [Title(section)] + Entries(Sort(GroupOf(rels, SectionFor, section), Less)) + [Gap]
  }

  function Groups(rels: seq<string>, sections: seq<string>): seq<Item> {
    if sections == [] then [] else Groups(rels, sections[..|sections| - 1]) + Group(rels, sections[|sections| - 1])
  }

  function Layout(rels: seq<string>): seq<Item> {
    Groups(rels, Sort(KeysOf(rels, SectionFor), SectionLess))
  }

  /** One section: its title, its paths sorted, an empty line. */
  method LayOutGroup(before: seq<Item>, section: string, group: seq<string>) returns (items: seq<Item>)
    ensures items == before + ([Title(section)] + Entries(Sort(group, Less)) + [Gap])
  {
    hide Sort, Less, Entries;
    var paths := Sort(group, Less);
    items := before + [Title(section)];
    for i := 0 to |paths|
      invariant items == before + [Title(section)] + Entries(paths)[..i]
    {
      assert Entries(paths)[..i + 1] == Entries(paths)[..i] + [Entry(paths[i])];
      items := items + [Entry(paths[i])];
    }
    assert Entries(paths)[..|paths|] == Entries(paths);
    items := items + [Gap];
  }

  method LayOut(rels: seq<string>) returns (items: seq<Item>)
    ensures items == Layout(rels)
  {
    hide SectionFor, Sort, SectionLess, Less, GroupOf, KeysOf, NoRepeats;
    var keys, groups := GroupBy(rels, SectionFor);
    var sections := Sort(keys, SectionLess);
    SortMembers(keys, SectionLess);
    SameMembers(sections, keys);
    items := [];
    for k := 0 to |sections|
      invariant items == Groups(rels, sections[..k])
    {
      assert sections[..k + 1][..k] == sections[..k];
      assert sections[k] in sections;
      items := LayOutGroup(items, sections[k], groups[sections[k]]);
    }
    assert sections[..|sections|] == sections;
  }

  // ---- What a layout holds ----

  /** The paths of the entries, in order. */
  function Paths(items: seq<Item>): seq<string> {
    if items == [] then []
    else
      var n := |items| - 1;
      Paths(items[..n]) + (if items[n].Entry? then [items[n].path] else [])
  }

  lemma {:induction false} PathsConcat(a: seq<Item>, b: seq<Item>)
    ensures Paths(a + b) == Paths(a) + Paths(b)
  {
    if b == [] {
      assert a + b == a;
    } else {
      assert (a + b)[..|a + b| - 1] == a + b[..|b| - 1];
      PathsConcat(a, b[..|b| - 1]);
    }
  }

  lemma {:induction false} PathsOfEntries(paths: seq<string>)
    ensures Paths(Entries(paths)) == paths
  {
    if paths != [] {
      var n := |paths| - 1;
      PathsOfEntries(paths[..n]);
      assert Entries(paths)[..n] == Entries(paths[..n]);
    }
  }

  lemma PathsOfGroup(rels: seq<string>, section: string)
    ensures Paths(Group(rels, section)) == Sort(GroupOf(rels, SectionFor, section), Less)
  {
    hide Sort, GroupOf, Entries, Less;
    var sorted := Sort(GroupOf(rels, SectionFor, section), Less);
    PathsConcat([Title(section)] + Entries(sorted), [Gap]);
    PathsConcat([Title(section)], Entries(sorted));
    PathsOfEntries(sorted);
    assert Paths([Title(section)]) == [] by { assert Paths([]) == []; }
    assert Paths([Gap]) == [] by { assert Paths([]) == []; }
  }

  /** The entries of one section: its own paths, in ascending order. */
  lemma GroupPaths(rels: seq<string>, section: string)
    requires NoRepeats(rels)
    ensures Ascending(Paths(Group(rels, section)), Less)
    ensures forall x :: x in Paths(Group(rels, section)) <==> x in rels && SectionFor(x) == section
  {
    hide *;
    PathsOfGroup(rels, section);
    GroupMembers(rels, SectionFor, section);
    LessIsOrder();
    SortAscends(GroupOf(rels, SectionFor, section), Less);
    SortMembers(GroupOf(rels, SectionFor, section), Less);
    SameMembers(Sort(GroupOf(rels, SectionFor, section), Less), GroupOf(rels, SectionFor, section));
  }

  lemma GroupsLast(rels: seq<string>, sections: seq<string>)
    requires sections != []
    ensures var n := |sections| - 1;
            && Paths(Groups(rels, sections)) == Paths(Groups(rels, sections[..n])) + Paths(Group(rels, sections[n]))
            && sections == sections[..n] + [sections[n]]
  {
    hide Group, Paths;
    PathsConcat(Groups(rels, sections[..|sections| - 1]), Group(rels, sections[|sections| - 1]));
  }

  lemma {:induction false} GroupsPaths(rels: seq<string>, sections: seq<string>)
    requires NoRepeats(rels) && Ascending(sections, SectionLess)
    ensures Ascending(Paths(Groups(rels, sections)), PathLess)
    ensures forall x :: x in Paths(Groups(rels, sections)) <==> x in rels && SectionFor(x) in sections
  {
    hide *;
    if sections == [] {
      NoPaths(rels);
    } else {
      var n := |sections| - 1;
      AscendingLast(sections, sections[..n], sections[n]);
      GroupsPaths(rels, sections[..n]);
      GroupPaths(rels, sections[n]);
      GroupsLast(rels, sections);
      var a, b := Paths(Groups(rels, sections[..n])), Paths(Group(rels, sections[n]));
      AscendingConcat(a, b, sections[n]);
    }
  }

  lemma NoPaths(rels: seq<string>)
    ensures Paths(Groups(rels, [])) == [] && Ascending([], PathLess)
  {
  }

  lemma AscendingLast(s: seq<string>, init: seq<string>, last: string)
    requires s == init + [last] && Ascending(s, SectionLess)
    ensures Ascending(init, SectionLess)
    ensures forall x :: x in init ==> SectionLess(x, last)
  {
    hide SectionLess;
    assert forall i :: 0 <= i < |init| ==> init[i] == s[i];
    assert s[|init|] == last;
  }

  /** Paths of earlier sections, then the paths of one later section. */
  lemma AscendingConcat(a: seq<string>, b: seq<string>, section: string)
    requires Ascending(a, PathLess) && Ascending(b, Less)
    requires forall x :: x in a ==> SectionLess(SectionFor(x), section)
    requires forall x :: x in b ==> SectionFor(x) == section
    ensures Ascending(a + b, PathLess)
  {
    hide SectionLess, SectionFor, Less;
    var s := a + b;
    forall i, j | 0 <= i < j < |s|
      ensures PathLess(s[i], s[j])
    {
      if i < |a| <= j {
        assert s[i] in a && s[j] in b;
      } else if |a| <= i {
        assert s[i] in b && s[j] in b;
      }
    }
  }

  /** The entries of the list, top to bottom, are the given paths, each once, sorted by section
      and then by name. */
  lemma LayoutIsSorted(rels: seq<string>)
    requires NoRepeats(rels)
    ensures Paths(Layout(rels)) == Sort(rels, PathLess)
    ensures multiset(Paths(Layout(rels))) == multiset(rels)
  {
    hide *;
    LayoutIs(rels);
    var sections := Sort(KeysOf(rels, SectionFor), SectionLess);
    var paths := Paths(Groups(rels, sections));
    SectionLessIsOrder();
    PathLessIsOrder();
    SortAscends(KeysOf(rels, SectionFor), SectionLess);
    SortMembers(KeysOf(rels, SectionFor), SectionLess);
    SameMembers(sections, KeysOf(rels, SectionFor));
    GroupsPaths(rels, sections);
    SortAscends(rels, PathLess);
    SortMembers(rels, PathLess);
    SameMembers(Sort(rels, PathLess), rels);
    AscendingIsUnique(paths, Sort(rels, PathLess), PathLess);
  }

  lemma LayoutIs(rels: seq<string>)
    ensures Layout(rels) == Groups(rels, Sort(KeysOf(rels, SectionFor), SectionLess))
    ensures NoRepeats(KeysOf(rels, SectionFor))
  {
  }

  // ---- Titles ----

  /** The last title above position i, or none. */
  function TitleAbove(items: seq<Item>, i: nat): Option<string>
    requires i <= |items|
  {
    if i == 0 then None
    else if items[i - 1].Title? then Some(items[i - 1].section)
    else TitleAbove(items, i - 1)
  }

  lemma {:induction false} TitleInPrefix(a: seq<Item>, b: seq<Item>, i: nat)
    requires i <= |a|
    ensures TitleAbove(a + b, i) == TitleAbove(a, i)
  {
    if i > 0 {
      TitleInPrefix(a, b, i - 1);
    }
  }

  lemma {:induction false} TitleInGroup(a: seq<Item>, rels: seq<string>, section: string, i: nat)
    requires |a| < i < |a| + |Group(rels, section)|
    ensures TitleAbove(a + Group(rels, section), i) == Some(section)
  {
    hide Sort, GroupOf, Less;
    var items := a + Group(rels, section);
    if i > |a| + 1 {
      assert !items[i - 1].Title?;
      TitleInGroup(a, rels, section, i - 1);
    }
  }

  lemma {:induction false} EntriesUnderTitle(rels: seq<string>, sections: seq<string>, i: nat)
    requires NoRepeats(rels) && i < |Groups(rels, sections)| && Groups(rels, sections)[i].Entry?
    ensures TitleAbove(Groups(rels, sections), i) == Some(SectionFor(Groups(rels, sections)[i].path))
  {
    hide SectionFor, NoRepeats, Group;
    var n := |sections| - 1;
    var a, g := Groups(rels, sections[..n]), Group(rels, sections[n]);
    if i < |a| {
      EntriesUnderTitle(rels, sections[..n], i);
      TitleInPrefix(a, g, i);
    } else {
      EntryInGroup(rels, sections[n], i - |a|);
      TitleInGroup(a, rels, sections[n], i);
    }
  }

  lemma EntryInGroup(rels: seq<string>, section: string, k: nat)
    requires NoRepeats(rels) && k < |Group(rels, section)| && Group(rels, section)[k].Entry?
    ensures k > 0 && SectionFor(Group(rels, section)[k].path) == section
  {
    hide SectionFor, Less, Sort, GroupOf;
    var members := GroupOf(rels, SectionFor, section);
    GroupMembers(rels, SectionFor, section);
    SortMembers(members, Less);
    SameMembers(Sort(members, Less), members);
    assert Group(rels, section)[k].path in Sort(members, Less);
  }

  /** Every entry stands under the title of its own section. */
  lemma LayoutTitles(rels: seq<string>, i: nat)
    requires NoRepeats(rels) && i < |Layout(rels)| && Layout(rels)[i].Entry?
    ensures TitleAbove(Layout(rels), i) == Some(SectionFor(Layout(rels)[i].path))
  {
    hide SectionFor, KeysOf, Sort, SectionLess;
    EntriesUnderTitle(rels, Sort(KeysOf(rels, SectionFor), SectionLess), i);
  }

  function Titles(items: seq<Item>): seq<string> {
    if items == [] then []
    else
      var n := |items| - 1;
      Titles(items[..n]) + (if items[n].Title? then [items[n].section] else [])
  }

  lemma {:induction false} TitlesAfter(a: seq<Item>, b: seq<Item>)
    requires forall i :: 0 <= i < |b| ==> !b[i].Title?
    ensures Titles(a + b) == Titles(a)
  {
    if b == [] {
      assert a + b == a;
    } else {
      assert (a + b)[..|a + b| - 1] == a + b[..|b| - 1];
      TitlesAfter(a, b[..|b| - 1]);
    }
  }

  lemma {:induction false} GroupTitles(rels: seq<string>, sections: seq<string>)
    ensures Titles(Groups(rels, sections)) == sections
  {
    hide Sort, GroupOf, Less, Entries;
    if sections != [] {
      var n := |sections| - 1;
      var a := Groups(rels, sections[..n]);
      var rest := Entries(Sort(GroupOf(rels, SectionFor, sections[n]), Less)) + [Gap];
      GroupTitles(rels, sections[..n]);
      assert a + Group(rels, sections[n]) == (a + [Title(sections[n])]) + rest;
      assert (a + [Title(sections[n])])[..|a|] == a;
      TitlesAfter(a + [Title(sections[n])], rest);
    }
  }

  /** The titles are exactly the sections that have paths, strictly ascending. */
  lemma LayoutTitlesAscend(rels: seq<string>)
    ensures Ascending(Titles(Layout(rels)), SectionLess)
    ensures forall s :: s in Titles(Layout(rels)) <==> exists x :: x in rels && SectionFor(x) == s
  {
    hide SectionFor, Sort, SectionLess, Groups, Ascending, IsOrder, Titles;
    GroupTitles(rels, Sort(KeysOf(rels, SectionFor), SectionLess));
    SectionLessIsOrder();
    SortAscends(KeysOf(rels, SectionFor), SectionLess);
    SortMembers(KeysOf(rels, SectionFor), SectionLess);
    SameMembers(Sort(KeysOf(rels, SectionFor), SectionLess), KeysOf(rels, SectionFor));
  }

  // ---- Independence of the walk ----

  lemma {:induction false} GroupsDependOnMembers(a: seq<string>, b: seq<string>, sections: seq<string>)
    requires NoRepeats(a) && NoRepeats(b) && forall x :: x in a <==> x in b
    ensures Groups(a, sections) == Groups(b, sections)
  {
    if sections != [] {
      var n := |sections| - 1;
      GroupsDependOnMembers(a, b, sections[..n]);
      hide SectionFor, GroupOf, Sort, NoRepeats, IsOrder, Less;
      GroupMembers(a, SectionFor, sections[n]);
      GroupMembers(b, SectionFor, sections[n]);
      LessIsOrder();
      SortDependsOnMembers(GroupOf(a, SectionFor, sections[n]), GroupOf(b, SectionFor, sections[n]), Less);
    }
  }

  /** The layout depends only on the set of paths, not on the order the walk found them in. */
  lemma LayoutDependsOnMembers(a: seq<string>, b: seq<string>)
    requires NoRepeats(a) && NoRepeats(b) && forall x :: x in a <==> x in b
    ensures Layout(a) == Layout(b)
  {
    hide SectionFor, Sort, SectionLess, Groups, NoRepeats, IsOrder;
    SectionLessIsOrder();
    SortDependsOnMembers(KeysOf(a, SectionFor), KeysOf(b, SectionFor), SectionLess);
    GroupsDependOnMembers(a, b, Sort(KeysOf(a, SectionFor), SectionLess));
  }

  // ---- The sections written out ----

  lemma PartsOf(a: string, b: string, c: string, rest: string)
    requires Free(a, '/') && Free(b, '/') && Free(c, '/')
    ensures Split(a + "/" + b + "/" + c, '/') == [a, b, c] && Split(a + "/" + b, '/') == [a, b] && Split(a, '/') == [a]
    ensures Split(a + "/" + b + "/" + c + "/" + rest, '/') == [a, b, c] + Split(rest, '/')
    ensures Join([a, b, c], "/") == a + "/" + b + "/" + c && Join([a, b], "/") == a + "/" + b && Join([a], "/") == a
  {
    hide *;
    OnePart(a);
    OnePart(b);
    OnePart(c);
    SplitConcat(a, b, '/');
    SplitConcat(a + "/" + b, c, '/');
    SplitConcat(a + "/" + b + "/" + c, rest, '/');
    JoinConcat([a], [b], "/");
    JoinConcat([a, b], [c], "/");
    assert [a] + [b] == [a, b] && [a, b] + [c] == [a, b, c];
    assert ['/'] == "/";
  }

  lemma OnePart(a: string)
    requires Free(a, '/')
    ensures Split(a, '/') == [a] && Join([a], "/") == a
  {
    assert FindChar(a, '/') == -1;
  }

  /** Where a file of the vendor partition goes: libraries, binaries and configuration by the
      directories that have a section of their own, everything else by its first directory. */
  lemma VendorSections(sub: string, c: string, rest: string)
    requires Free(sub, '/') && Free(c, '/')
    ensures SectionFor("vendor/" + sub + "/" + c) == "vendor/" + sub
    ensures SectionFor("vendor/" + sub + "/" + c + "/" + rest) ==
            if || (sub == "etc" && c != "")
               || (sub in ["lib", "lib64"]
                   && c in ["hw", "camera", "soundfx", "mediadrm", "egl", "drm", "rfsa", "vndk-sp", "mediacas"])
               || (sub == "bin" && c == "hw")
            then "vendor/" + sub + "/" + c
            else "vendor/" + sub
  {
    hide *;
    assert Free("vendor", '/') by { NoSlash(); }
    PartsOf("vendor", sub, c, rest);
    assert "vendor" + "/" == "vendor/";
    VendorSection("vendor/" + sub + "/" + c, ["vendor", sub, c], sub, c);
    SomeParts(rest);
    VendorSection("vendor/" + sub + "/" + c + "/" + rest, ["vendor", sub, c] + Split(rest, '/'), sub, c);
  }

  lemma SomeParts(rest: string)
    ensures |Split(rest, '/')| >= 1
  {
  }

  lemma VendorSection(rel: string, parts: seq<string>, sub: string, c: string)
    requires Split(rel, '/') == parts && |parts| >= 3 && parts[0] == "vendor" && parts[1] == sub && parts[2] == c
    requires Join(["vendor", sub, c], "/") == "vendor/" + sub + "/" + c
    requires Join(["vendor", sub], "/") == "vendor/" + sub
    ensures SectionFor(rel) ==
            if |parts| > 3
               && (|| (sub == "etc" && c != "")
                   || (sub in ["lib", "lib64"]
                       && c in ["hw", "camera", "soundfx", "mediadrm", "egl", "drm", "rfsa", "vndk-sp", "mediacas"])
                   || (sub == "bin" && c == "hw"))
            then "vendor/" + sub + "/" + c
            else "vendor/" + sub
  {
    assert parts[..3] == ["vendor", sub, c] && parts[..2] == ["vendor", sub];
    hide Split, Join;
  }

  /** Outside the vendor partition three directories are told apart by their subdirectories. */
  lemma OtherSections(top: string, sub: string, rest: string)
    requires Free(top, '/') && Free(sub, '/') && top != "vendor"
    ensures SectionFor(top) == top
    ensures SectionFor(top + "/" + sub) == SectionFor(top + "/" + sub + "/" + rest) ==
            if top == "etc" || top == "odm" || top == "system" then top + "/" + sub else top
    ensures SectionFor("vendor/" + sub) == "vendor"
  {
    hide *;
    assert Free("", '/') && Free("vendor", '/') by { NoSlash(); }
    PartsOf(top, sub, "", "");
    PartsOf("vendor", sub, "", "");
    SplitConcat(top + "/" + sub, rest, '/');
    assert ['/'] == "/" && "vendor" + "/" == "vendor/";
    OtherSection(top, [top], top, sub);
    OtherSection(top + "/" + sub, [top, sub], top, sub);
    OtherSection(top + "/" + sub + "/" + rest, [top, sub] + Split(rest, '/'), top, sub);
    VendorFile("vendor/" + sub, sub);
  }

  lemma NoSlash()
    ensures Free("", '/') && Free("vendor", '/')
  {
  }

  lemma VendorFile(rel: string, sub: string)
    requires Split(rel, '/') == ["vendor", sub]
    ensures SectionFor(rel) == "vendor"
  {
    assert ["vendor", sub][..1] == ["vendor"];
    hide Split;
  }

  lemma OtherSection(rel: string, parts: seq<string>, top: string, sub: string)
    requires Split(rel, '/') == parts && parts != [] && parts[0] == top != "vendor"
    requires |parts| > 1 ==> parts[1] == sub
    requires Join([top, sub], "/") == top + "/" + sub && Join([top], "/") == top
    ensures SectionFor(rel) ==
            if |parts| > 1 && (top == "etc" || top == "odm" || top == "system") then top + "/" + sub else top
  {
    OtherDepth(parts, top);
    FirstTwo(parts);
    hide Split, Join, SectionDepth;
  }

  lemma OtherDepth(parts: seq<string>, top: string)
    requires parts != [] && parts[0] == top != "vendor"
    ensures SectionDepth(parts) ==
            if |parts| > 1 && (top == "etc" || top == "odm" || top == "system") then 2 else 1
  {
  }

  lemma FirstTwo(parts: seq<string>)
    requires parts != []
    ensures parts[..1] == [parts[0]] && (|parts| > 1 ==> parts[..2] == [parts[0], parts[1]])
  {
  }

  // ---- The order of sections written out ----

  lemma {:induction false} RankAtMost(order: seq<string>, s: string, i: nat)
    requires i < |order| && order[i] == s
    ensures RankIn(order, s) <= i
  {
    if i > 0 {
      RankAtMost(order[1..], s, i - 1);
    }
  }

  lemma {:induction false} RankAtLeast(order: seq<string>, s: string, i: nat)
    requires i <= |order| && forall k :: 0 <= k < i ==> order[k] != s
    ensures RankIn(order, s) >= i
  {
    if i > 0 {
      RankAtLeast(order[1..], s, i - 1);
    }
  }

  /** Sections of the table come in its order and before all others, which come by name. */
  lemma SectionsInOrder(a: string, b: string)
    ensures a in SECTION_ORDER && b !in SECTION_ORDER ==> SectionLess(a, b)
    ensures a !in SECTION_ORDER && b !in SECTION_ORDER ==> (SectionLess(a, b) <==> Less(a, b))
    ensures forall i, j :: 0 <= i < j < |SECTION_ORDER| && SECTION_ORDER[j] !in SECTION_ORDER[..j] ==>
              SectionLess(SECTION_ORDER[i], SECTION_ORDER[j])
  {
    hide *;
    SectionLessIs(a, b);
    if a in SECTION_ORDER {
      var i :| 0 <= i < |SECTION_ORDER| && SECTION_ORDER[i] == a;
      RankAtMost(SECTION_ORDER, a, i);
    }
    if b !in SECTION_ORDER {
      RankAtLeast(SECTION_ORDER, b, |SECTION_ORDER|);
    }
    if a !in SECTION_ORDER {
      RankAtLeast(SECTION_ORDER, a, |SECTION_ORDER|);
    }
    forall i, j | 0 <= i < j < |SECTION_ORDER| && SECTION_ORDER[j] !in SECTION_ORDER[..j]
      ensures SectionLess(SECTION_ORDER[i], SECTION_ORDER[j])
    {
      SectionLessIs(SECTION_ORDER[i], SECTION_ORDER[j]);
      RankAtMost(SECTION_ORDER, SECTION_ORDER[i], i);
      assert forall k :: 0 <= k < j ==> SECTION_ORDER[..j][k] == SECTION_ORDER[k];
      RankAtLeast(SECTION_ORDER, SECTION_ORDER[j], j);
    }
  }

  lemma SectionLessIs(a: string, b: string)
    ensures var i, j := RankIn(SECTION_ORDER, a), RankIn(SECTION_ORDER, b);
            SectionLess(a, b) <==> i < j || (i == j && Less(a, b))
    ensures RankIn(SECTION_ORDER, a) <= |SECTION_ORDER|
  {
    hide RankIn, Less, SECTION_ORDER;
  }

  // ---- The table ----

  /** The sections of the table in order: directories, each followed by its subdirectories that have
      sections of their own, and then single ones. */
  lemma TableOfSections()
    ensures SECTION_ORDER[..6] ==
            ["vendor/etc"] + Within("vendor/etc/", ["init", "vintf", "permissions", "audio", "seccomp_policy"])
    ensures SECTION_ORDER[6..13] ==
            ["vendor/lib"] + Within("vendor/lib/", ["hw", "egl", "drm", "soundfx", "mediadrm", "vndk-sp"])
    ensures SECTION_ORDER[13..22] ==
            ["vendor/lib64"] + Within("vendor/lib64/", ["hw", "camera", "soundfx", "drm", "mediadrm",
                                                        "mediacas", "vndk-sp", "rfsa"])
    ensures SECTION_ORDER[22..] ==
            ["vendor/bin", "vendor/bin/hw"] + Within("vendor/", ["firmware", "firmware_mnt", "dsp", "rfs",
                                                                 "bt_firmware", "soccp_firmware", "app",
                                                                 "priv-app", "overlay", "qprof", "odm_dlkm"])
  {
    hide *;
    ConfigurationTable();
    LibrariesTable();
    WideLibrariesTable();
    OtherTable();
  }

  lemma ConfigurationTable()
    ensures SECTION_ORDER[..6] ==
            ["vendor/etc"] + Within("vendor/etc/", ["init", "vintf", "permissions", "audio", "seccomp_policy"])
  {
    ConfigurationPaths();
    hide Within;
    assert SECTION_ORDER[..6] ==
           ["vendor/etc", "vendor/etc/init", "vendor/etc/vintf",
           "vendor/etc/permissions", "vendor/etc/audio", "vendor/etc/seccomp_policy"];
  }

  lemma ConfigurationPaths()
    ensures Within("vendor/etc/", ["init", "vintf", "permissions", "audio", "seccomp_policy"]) ==
            ["vendor/etc/init", "vendor/etc/vintf", "vendor/etc/permissions", "vendor/etc/audio",
             "vendor/etc/seccomp_policy"]
  {
    hide SECTION_ORDER;
    assert "vendor/etc/" + "init" == "vendor/etc/init";
    assert "vendor/etc/" + "vintf" == "vendor/etc/vintf";
    assert "vendor/etc/" + "permissions" == "vendor/etc/permissions";
    assert "vendor/etc/" + "audio" == "vendor/etc/audio";
    assert "vendor/etc/" + "seccomp_policy" == "vendor/etc/seccomp_policy";
  }

  lemma LibrariesTable()
    ensures SECTION_ORDER[6..13] ==
            ["vendor/lib"] + Within("vendor/lib/", ["hw", "egl", "drm", "soundfx", "mediadrm", "vndk-sp"])
  {
    LibrariesPaths();
    hide Within;
    assert SECTION_ORDER[6] == "vendor/lib";
    assert SECTION_ORDER[7] == "vendor/lib/hw";
    assert SECTION_ORDER[8] == "vendor/lib/egl";
    assert SECTION_ORDER[9] == "vendor/lib/drm";
    assert SECTION_ORDER[10] == "vendor/lib/soundfx";
    assert SECTION_ORDER[11] == "vendor/lib/mediadrm";
    assert SECTION_ORDER[12] == "vendor/lib/vndk-sp";
  }

  lemma LibrariesPaths()
    ensures Within("vendor/lib/", ["hw", "egl", "drm", "soundfx", "mediadrm", "vndk-sp"]) ==
            ["vendor/lib/hw", "vendor/lib/egl", "vendor/lib/drm", "vendor/lib/soundfx", "vendor/lib/mediadrm",
             "vendor/lib/vndk-sp"]
  {
    hide SECTION_ORDER;
    assert "vendor/lib/" + "hw" == "vendor/lib/hw";
    assert "vendor/lib/" + "egl" == "vendor/lib/egl";
    assert "vendor/lib/" + "drm" == "vendor/lib/drm";
    assert "vendor/lib/" + "soundfx" == "vendor/lib/soundfx";
    assert "vendor/lib/" + "mediadrm" == "vendor/lib/mediadrm";
    assert "vendor/lib/" + "vndk-sp" == "vendor/lib/vndk-sp";
  }

  lemma WideLibrariesTable()
    ensures SECTION_ORDER[13..22] ==
            ["vendor/lib64"] + Within("vendor/lib64/", ["hw", "camera", "soundfx", "drm", "mediadrm",
                                                        "mediacas", "vndk-sp", "rfsa"])
  {
    WideLibrariesPaths();
    hide Within;
    assert SECTION_ORDER[13] == "vendor/lib64";
    assert SECTION_ORDER[14] == "vendor/lib64/hw";
    assert SECTION_ORDER[15] == "vendor/lib64/camera";
    assert SECTION_ORDER[16] == "vendor/lib64/soundfx";
    assert SECTION_ORDER[17] == "vendor/lib64/drm";
    assert SECTION_ORDER[18] == "vendor/lib64/mediadrm";
    assert SECTION_ORDER[19] == "vendor/lib64/mediacas";
    assert SECTION_ORDER[20] == "vendor/lib64/vndk-sp";
    assert SECTION_ORDER[21] == "vendor/lib64/rfsa";
  }

  lemma WideLibrariesPaths()
    ensures Within("vendor/lib64/", ["hw", "camera", "soundfx", "drm", "mediadrm", "mediacas", "vndk-sp", "rfsa"]) ==
            ["vendor/lib64/hw", "vendor/lib64/camera", "vendor/lib64/soundfx", "vendor/lib64/drm",
             "vendor/lib64/mediadrm", "vendor/lib64/mediacas", "vendor/lib64/vndk-sp", "vendor/lib64/rfsa"]
  {
    hide SECTION_ORDER;
    assert "vendor/lib64/" + "hw" == "vendor/lib64/hw";
    assert "vendor/lib64/" + "camera" == "vendor/lib64/camera";
    assert "vendor/lib64/" + "soundfx" == "vendor/lib64/soundfx";
    assert "vendor/lib64/" + "drm" == "vendor/lib64/drm";
    assert "vendor/lib64/" + "mediadrm" == "vendor/lib64/mediadrm";
    assert "vendor/lib64/" + "mediacas" == "vendor/lib64/mediacas";
    assert "vendor/lib64/" + "vndk-sp" == "vendor/lib64/vndk-sp";
    assert "vendor/lib64/" + "rfsa" == "vendor/lib64/rfsa";
  }

  lemma OtherTable()
    ensures SECTION_ORDER[22..] ==
            ["vendor/bin", "vendor/bin/hw"] + Within("vendor/", ["firmware", "firmware_mnt", "dsp", "rfs",
                                                                 "bt_firmware", "soccp_firmware", "app",
                                                                 "priv-app", "overlay", "qprof", "odm_dlkm"])
  {
    OtherPaths();
    hide Within;
    assert SECTION_ORDER[22..] ==
           ["vendor/bin", "vendor/bin/hw", "vendor/firmware",
           "vendor/firmware_mnt", "vendor/dsp", "vendor/rfs", "vendor/bt_firmware", "vendor/soccp_firmware",
           "vendor/app", "vendor/priv-app", "vendor/overlay", "vendor/qprof", "vendor/odm_dlkm"];
  }

  lemma OtherPaths()
    ensures Within("vendor/", ["firmware", "firmware_mnt", "dsp", "rfs", "bt_firmware", "soccp_firmware",
                               "app", "priv-app", "overlay", "qprof", "odm_dlkm"]) ==
            ["vendor/firmware", "vendor/firmware_mnt", "vendor/dsp", "vendor/rfs", "vendor/bt_firmware",
             "vendor/soccp_firmware", "vendor/app", "vendor/priv-app", "vendor/overlay", "vendor/qprof",
             "vendor/odm_dlkm"]
  {
    hide SECTION_ORDER;
    assert "vendor/" + "firmware" == "vendor/firmware";
    assert "vendor/" + "firmware_mnt" == "vendor/firmware_mnt";
    assert "vendor/" + "dsp" == "vendor/dsp";
    assert "vendor/" + "rfs" == "vendor/rfs";
    assert "vendor/" + "bt_firmware" == "vendor/bt_firmware";
    assert "vendor/" + "soccp_firmware" == "vendor/soccp_firmware";
    assert "vendor/" + "app" == "vendor/app";
    assert "vendor/" + "priv-app" == "vendor/priv-app";
    assert "vendor/" + "overlay" == "vendor/overlay";
    assert "vendor/" + "qprof" == "vendor/qprof";
    assert "vendor/" + "odm_dlkm" == "vendor/odm_dlkm";
  }

  function Within(top: string, dirs: seq<string>): (paths: seq<string>)
    ensures |paths| == |dirs| && forall i :: 0 <= i < |dirs| ==> paths[i] == top + dirs[i]
  {
    seq(|dirs|, i requires 0 <= i < |dirs| => top + dirs[i])
  }
}
