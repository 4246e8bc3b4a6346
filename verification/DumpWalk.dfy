/** Which files of the dump go where (closure.py, enumerate_dump and the collection part of
    emit_pcf_bypass_mk). */
module DumpWalk {
  import opened Text
  import opened Sorting

  /** A file as the walk meets it: its path below the dump root and whether it is a link. */
  datatype Entry = Entry(rel: string, isLink: bool)

  /** The literal tables of the script. */
  datatype Tables = Tables(excludeBasenames: set<string>, excludePaths: set<string>,
                           runtime: seq<string>, bypass: seq<string>)

  const PARTITIONS := ["vendor", "system", "system_ext", "product", "odm", "recovery"]
  const APK_PARTITIONS := ["vendor", "system", "system_ext", "product", "odm"]
  const UNHANDLED := ["overlay"]

  /** Under a directory, or itself, named with a leading dot: the walk does not look at it. */
  predicate Hidden(rel: string) {
    var parts := Split(rel, '/');
    exists i :: 0 <= i < |parts| && parts[i] != "" && parts[i][0] == '.'
  }

  predicate UnderAny(rel: string, prefixes: seq<string>) {
    exists i :: 0 <= i < |prefixes| && prefixes[i] <= rel
  }

  predicate InApk(parts: seq<string>) {
    |parts| >= 5 && parts[0] in APK_PARTITIONS && (parts[1] == "app" || parts[1] == "priv-app") && parts[3] == "lib"
  }

  /** What becomes of a visible file; Skipped names the counter it is added to. */
  datatype Fate = Kept | Link | ApkLib | Skipped(reason: string)

  /** rel.split('/', 2)[1] when there is a slash, else rel. */
  function SecondPart(rel: string): string {
    var parts := Split(rel, '/');
    if |parts| >= 2 then parts[1] else rel
  }

  function FateOf(e: Entry, t: Tables): Fate {
    var parts := Split(e.rel, '/');
    if parts[0] !in PARTITIONS then Skipped(parts[0])
    else if |parts| >= 2 && parts[1] in UNHANDLED then Skipped(parts[0] + "/" + parts[1])
    else if e.isLink then Link
    else if InApk(parts) then ApkLib
    else if Basename(e.rel) in t.excludeBasenames then Skipped("EXCLUDE:" + Basename(e.rel))
    else if e.rel in t.excludePaths then Skipped("EXCLUDE_PATH:" + e.rel)
    else if UnderAny(e.rel, t.runtime) then Skipped("RUNTIME_PART:" + SecondPart(e.rel))
    else if UnderAny(e.rel, t.bypass) then Skipped("PCF_BYPASS:" + SecondPart(e.rel))
    else Kept
  }

  /** The visible files of the walk with a given fate. */
  function WithFate(walk: seq<Entry>, f: Fate, t: Tables): (rels: seq<string>)
    ensures forall x :: x in rels <==> exists e :: e in walk && e.rel == x && !Hidden(x) && FateOf(e, t) == f
  {
    if walk == [] then []
    else
      var n := |walk| - 1;
      assert walk == walk[..n] + [walk[n]];
      WithFate(walk[..n], f, t)
      + (if !Hidden(walk[n].rel) && FateOf(walk[n], t) == f then [walk[n].rel] else [])
  }

  function VisibleCount(walk: seq<Entry>): nat {
    if walk == [] then 0
    else
      var n := |walk| - 1;
      VisibleCount(walk[..n]) + (if Hidden(walk[n].rel) then 0 else 1)
  }

  // ---- Counters in a dictionary ----

  function CounterOf(counters: map<string, nat>, reason: string): nat {
    if reason in counters then counters[reason] else 0
  }

  /** The sum of all counters. */
  ghost function Total(counters: map<string, nat>): nat
    decreases |counters|
  {
    if counters == map[] then 0
    else
      var k :| k in counters;
      counters[k] + Total(counters - {k})
  }

  lemma {:induction false} TotalSplits(counters: map<string, nat>, k: string)
    requires k in counters
    ensures Total(counters) == counters[k] + Total(counters - {k})
    decreases |counters|
  {
    var j :| j in counters && Total(counters) == counters[j] + Total(counters - {j});
    if j != k {
      TotalSplits(counters - {j}, k);
      TotalSplits(counters - {k}, j);
      assert counters - {j} - {k} == counters - {k} - {j};
    }
  }

  /** counters[reason] += 1 of a defaultdict. */
  function Bump(counters: map<string, nat>, reason: string): map<string, nat> {
    counters[reason := CounterOf(counters, reason) + 1]
  }

  lemma BumpAddsOne(counters: map<string, nat>, reason: string)
    ensures Total(Bump(counters, reason)) == Total(counters) + 1
  {
    var more := Bump(counters, reason);
    TotalSplits(more, reason);
    if reason in counters {
      TotalSplits(counters, reason);
      assert more - {reason} == counters - {reason};
    } else {
      assert more - {reason} == counters;
    }
  }

  // ---- enumerate_dump ----

  /** Every visible file is either listed or counted under exactly one heading, and the list is
      sorted. */
  method EnumerateDump(walk: seq<Entry>, t: Tables)
      returns (files: seq<string>, skippedTop: map<string, nat>, skippedLinks: nat, skippedApkLibs: nat)
    ensures files == Sort(WithFate(walk, Kept, t), Less)
    ensures skippedLinks == |WithFate(walk, Link, t)| && skippedApkLibs == |WithFate(walk, ApkLib, t)|
    ensures forall r :: CounterOf(skippedTop, r) == |WithFate(walk, Skipped(r), t)|
    ensures |files| + Total(skippedTop) + skippedLinks + skippedApkLibs == VisibleCount(walk)
  {
    hide *;
    files, skippedTop, skippedLinks, skippedApkLibs := [], map[], 0, 0;
    NothingWalked(t);
    assert walk[..0] == [];
    for i := 0 to |walk|
      invariant files == WithFate(walk[..i], Kept, t)
      invariant skippedLinks == |WithFate(walk[..i], Link, t)| && skippedApkLibs == |WithFate(walk[..i], ApkLib, t)|
      invariant forall r :: CounterOf(skippedTop, r) == |WithFate(walk[..i], Skipped(r), t)|
      invariant |files| + Total(skippedTop) + skippedLinks + skippedApkLibs == VisibleCount(walk[..i])
    {
      WalkStep(walk, i, t);
      var e := walk[i];
      if Hidden(e.rel) {
        continue;
      }
      var fate := Classify(e, t);
      match fate {
        case Kept => files := files + [e.rel];
        case Link => skippedLinks := skippedLinks + 1;
        case ApkLib => skippedApkLibs := skippedApkLibs + 1;
        case Skipped(reason) =>
          BumpAddsOne(skippedTop, reason);
          BumpCounts(skippedTop, reason);
          skippedTop := Bump(skippedTop, reason);
      }
    }
    assert walk[..|walk|] == walk;
    SortMembers(files, Less);
    SameMembers(files, Sort(files, Less));
    files := Sort(files, Less);
  }

  /** The chain of tests, first match wins. */
  method Classify(e: Entry, t: Tables) returns (f: Fate)
    ensures f == FateOf(e, t)
  {
    var parts := Split(e.rel, '/');
    var top := parts[0];
    if top !in PARTITIONS {
      return Skipped(top);
    }
    if |parts| >= 2 && parts[1] in UNHANDLED {
      return Skipped(top + "/" + parts[1]);
    }
    if e.isLink {
      return Link;
    }
    if InApk(parts) {
      return ApkLib;
    }
    if Basename(e.rel) in t.excludeBasenames {
      return Skipped("EXCLUDE:" + Basename(e.rel));
    }
    if e.rel in t.excludePaths {
      return Skipped("EXCLUDE_PATH:" + e.rel);
    }
    if UnderAny(e.rel, t.runtime) {
      return Skipped("RUNTIME_PART:" + SecondPart(e.rel));
    }
    if UnderAny(e.rel, t.bypass) {
      return Skipped("PCF_BYPASS:" + SecondPart(e.rel));
    }
    return Kept;
  }

  lemma NothingWalked(t: Tables)
    ensures forall f :: WithFate([], f, t) == []
    ensures VisibleCount([]) == 0 && Total(map[]) == 0
    ensures forall r :: CounterOf(map[], r) == 0
  {
  }

  lemma BumpCounts(counters: map<string, nat>, reason: string)
    ensures forall r :: CounterOf(Bump(counters, reason), r) == CounterOf(counters, r) + (if r == reason then 1 else 0)
  {
  }

  lemma WalkStep(walk: seq<Entry>, i: nat, t: Tables)
    requires i < |walk|
    ensures var e := walk[i];
            && (forall f :: WithFate(walk[..i + 1], f, t) ==
                  WithFate(walk[..i], f, t) + (if !Hidden(e.rel) && FateOf(e, t) == f then [e.rel] else []))
            && VisibleCount(walk[..i + 1]) == VisibleCount(walk[..i]) + (if Hidden(e.rel) then 0 else 1)
  {
    hide Hidden, FateOf;
    assert walk[..i + 1][..i] == walk[..i];
  }

  // ---- What the list holds ----

  ghost predicate EachOnce(walk: seq<Entry>) {
    forall i, j :: 0 <= i < j < |walk| ==> walk[i].rel != walk[j].rel
  }

  ghost function Listed(walk: seq<Entry>, t: Tables): seq<string> {
    Sort(WithFate(walk, Kept, t), Less)
  }

  lemma {:induction false} FatesHaveNoRepeats(walk: seq<Entry>, f: Fate, t: Tables)
    requires EachOnce(walk)
    ensures NoRepeats(WithFate(walk, f, t))
  {
    hide Hidden, FateOf;
    if walk != [] {
      var n := |walk| - 1;
      FatesHaveNoRepeats(walk[..n], f, t);
      assert forall e :: e in walk[..n] ==> e.rel != walk[n].rel;
    }
  }

  lemma KeptIsInPartition(e: Entry, t: Tables)
    requires FateOf(e, t) == Kept
    ensures Split(e.rel, '/')[0] in PARTITIONS && !UnderAny(e.rel, t.bypass) && !e.isLink
  {
    hide InApk, UnderAny, Basename, Split;
  }

  /** A path below a partition, as every listed one is, starts with a small letter. */
  lemma PartitionStartsSmall(rel: string)
    requires Split(rel, '/')[0] in PARTITIONS
    ensures rel != "" && 'a' <= rel[0] <= 'z'
  {
    hide Split;
    SplitParts(rel, '/');
    var parts := Split(rel, '/');
    assert |parts| == 1 ==> Join(parts, "/") == parts[0];
    assert |parts| > 1 ==> Join(parts, "/") == parts[0] + "/" + Join(parts[1..], "/");
  }

  /** The list is strictly ascending and depends only on which files the dump holds. */
  lemma ListedDependsOnMembers(a: seq<Entry>, b: seq<Entry>, t: Tables)
    requires EachOnce(a) && EachOnce(b) && forall e :: e in a <==> e in b
    ensures Listed(a, t) == Listed(b, t) && Ascending(Listed(a, t), Less)
  {
    hide Hidden, FateOf, Less, Sort, IsOrder, NoRepeats, EachOnce, Ascending;
    LessIsOrder();
    FatesHaveNoRepeats(a, Kept, t);
    FatesHaveNoRepeats(b, Kept, t);
    SortAscends(WithFate(a, Kept, t), Less);
    SortDependsOnMembers(WithFate(a, Kept, t), WithFate(b, Kept, t), Less);
  }

  // ---- The bypass list ----

  predicate Bypassed(e: Entry, t: Tables) {
    !Hidden(e.rel) && !e.isLink && UnderAny(e.rel, t.bypass)
  }

  function BypassedIn(walk: seq<Entry>, t: Tables): (rels: seq<string>)
    ensures forall x :: x in rels <==> exists e :: e in walk && e.rel == x && Bypassed(e, t)
  {
    if walk == [] then []
    else
      var n := |walk| - 1;
      assert walk == walk[..n] + [walk[n]];
      BypassedIn(walk[..n], t) + (if Bypassed(walk[n], t) then [walk[n].rel] else [])
  }

  method CollectBypass(walk: seq<Entry>, t: Tables) returns (files: seq<string>)
    ensures files == Sort(BypassedIn(walk, t), Less)
  {
    hide Hidden, UnderAny, Sort;
    files := [];
    for i := 0 to |walk|
      invariant files == BypassedIn(walk[..i], t)
    {
      assert walk[..i + 1][..i] == walk[..i];
      var e := walk[i];
      if !Hidden(e.rel) && !e.isLink && UnderAny(e.rel, t.bypass) {
        files := files + [e.rel];
      }
    }
    assert walk[..|walk|] == walk;
    files := Sort(files, Less);
  }

  lemma {:induction false} BypassHasNoRepeats(walk: seq<Entry>, t: Tables)
    requires EachOnce(walk)
    ensures NoRepeats(BypassedIn(walk, t))
  {
    hide Bypassed;
    if walk != [] {
      var n := |walk| - 1;
      BypassHasNoRepeats(walk[..n], t);
      assert forall e :: e in walk[..n] ==> e.rel != walk[n].rel;
      assert walk[n].rel !in BypassedIn(walk[..n], t);
    }
  }

  lemma SamePathSameEntry(walk: seq<Entry>, e: Entry, f: Entry)
    requires EachOnce(walk) && e in walk && f in walk && e.rel == f.rel
    ensures e == f
  {
  }

  /** No file is both listed for extract-utils and copied by the makefile. A visible file that is
      not a link is left out of both exactly when it lies under no bypass prefix and one of the
      earlier tests skips it; under a bypass prefix those tests do not keep it from being copied. */
  lemma ListsAreDisjoint(walk: seq<Entry>, t: Tables, e: Entry)
    requires EachOnce(walk) && e in walk
    ensures !(e.rel in Listed(walk, t) && e.rel in BypassedIn(walk, t))
    ensures e.rel in BypassedIn(walk, t) <==> !Hidden(e.rel) && !e.isLink && UnderAny(e.rel, t.bypass)
    ensures !Hidden(e.rel) && !e.isLink && !UnderAny(e.rel, t.bypass) ==>
              (e.rel in Listed(walk, t) <==> FateOf(e, t) == Kept)
  {
    hide Hidden, UnderAny, Sort, EachOnce, FateOf;
    SortMembers(WithFate(walk, Kept, t), Less);
    SameMembers(Listed(walk, t), WithFate(walk, Kept, t));
    forall f | f in walk && f.rel == e.rel
      ensures f == e
    {
      SamePathSameEntry(walk, e, f);
    }
    if FateOf(e, t) == Kept {
      KeptIsInPartition(e, t);
    }
  }

  // ---- Which files enter the list and the counters ----

  /** A file of the dump is listed exactly when it passes every test: it is visible and no link, in
      one of the six partitions but not an overlay, no library inside an app, in neither exclusion
      table, and under no runtime or bypass prefix. */
  lemma ListedIff(walk: seq<Entry>, t: Tables, e: Entry)
    requires e in walk && forall i, j :: 0 <= i < j < |walk| ==> walk[i].rel != walk[j].rel
    ensures var parts := Split(e.rel, '/');
            e.rel in Listed(walk, t) <==>
            && (forall i :: 0 <= i < |parts| && parts[i] != "" ==> parts[i][0] != '.')
            && !e.isLink
            && parts[0] in ["vendor", "system", "system_ext", "product", "odm", "recovery"]
            && !(|parts| >= 2 && parts[1] == "overlay")
            && !(|parts| >= 5 && parts[0] in ["vendor", "system", "system_ext", "product", "odm"]
                 && parts[1] in ["app", "priv-app"] && parts[3] == "lib")
            && parts[|parts| - 1] !in t.excludeBasenames && e.rel !in t.excludePaths
            && (forall i :: 0 <= i < |t.runtime| ==> !(t.runtime[i] <= e.rel))
            && (forall i :: 0 <= i < |t.bypass| ==> !(t.bypass[i] <= e.rel))
  {
    KeptIff(e, t);
    hide Split, Sort, Less, EachOnce, FateOf, Hidden;
    SortMembers(WithFate(walk, Kept, t), Less);
    SameMembers(Listed(walk, t), WithFate(walk, Kept, t));
    forall f | f in walk && f.rel == e.rel
      ensures f == e
    {
      SamePathSameEntry(walk, e, f);
    }
  }

  lemma KeptIff(e: Entry, t: Tables)
    ensures var parts := Split(e.rel, '/');
            !Hidden(e.rel) && FateOf(e, t) == Kept <==>
            && (forall i :: 0 <= i < |parts| && parts[i] != "" ==> parts[i][0] != '.')
            && !e.isLink
            && parts[0] in ["vendor", "system", "system_ext", "product", "odm", "recovery"]
            && !(|parts| >= 2 && parts[1] == "overlay")
            && !(|parts| >= 5 && parts[0] in ["vendor", "system", "system_ext", "product", "odm"]
                 && parts[1] in ["app", "priv-app"] && parts[3] == "lib")
            && parts[|parts| - 1] !in t.excludeBasenames && e.rel !in t.excludePaths
            && (forall i :: 0 <= i < |t.runtime| ==> !(t.runtime[i] <= e.rel))
            && (forall i :: 0 <= i < |t.bypass| ==> !(t.bypass[i] <= e.rel))
  {
    hide Split;
  }

  /** The rows of the report a visible file can be counted in, in the order they are tested. */
  datatype Row = Bare | Unhandled | Symlink | AppLibrary | Basenames | Paths | Runtime | Bypass

  /** The file belongs in this row, whatever the earlier rows say. */
  predicate Fits(e: Entry, t: Tables, row: Row) {
    var parts := Split(e.rel, '/');
    match row
    case Bare => parts[0] !in ["vendor", "system", "system_ext", "product", "odm", "recovery"]
    case Unhandled => |parts| >= 2 && parts[1] == "overlay"
    case Symlink => e.isLink
    case AppLibrary =>
      && |parts| >= 5 && parts[0] in ["vendor", "system", "system_ext", "product", "odm"]
      && parts[1] in ["app", "priv-app"] && parts[3] == "lib"
    case Basenames => parts[|parts| - 1] in t.excludeBasenames
    case Paths => e.rel in t.excludePaths
    case Runtime => exists i :: 0 <= i < |t.runtime| && t.runtime[i] <= e.rel
    case Bypass => exists i :: 0 <= i < |t.bypass| && t.bypass[i] <= e.rel
  }

  const ROWS := [Bare, Unhandled, Symlink, AppLibrary, Basenames, Paths, Runtime, Bypass]

  /** Which counter a visible file that is not listed enters: that of the first row it fits. */
  lemma CountedInFirstRow(e: Entry, t: Tables, k: nat)
    requires k < 8 && Fits(e, t, ROWS[k]) && forall j :: 0 <= j < k ==> !Fits(e, t, ROWS[j])
    ensures var parts := Split(e.rel, '/');
            var second := if |parts| >= 2 then parts[1] else e.rel;
            FateOf(e, t) ==
            [Skipped(parts[0]), Skipped(parts[0] + "/overlay"), Link, ApkLib,
             Skipped("EXCLUDE:" + parts[|parts| - 1]), Skipped("EXCLUDE_PATH:" + e.rel),
             Skipped("RUNTIME_PART:" + second), Skipped("PCF_BYPASS:" + second)][k]
  {
    hide Split;
    assert forall j :: 0 <= j < k ==> !Fits(e, t, ROWS[j]);
    assert ROWS[0] == Bare && ROWS[1] == Unhandled && ROWS[2] == Symlink && ROWS[3] == AppLibrary;
    assert ROWS[4] == Basenames && ROWS[5] == Paths && ROWS[6] == Runtime && ROWS[7] == Bypass;
  }

  /** And it enters one exactly when it is not listed. */
  lemma UncountedIsKept(e: Entry, t: Tables)
    ensures FateOf(e, t) == Kept <==> forall j :: 0 <= j < 8 ==> !Fits(e, t, ROWS[j])
  {
    hide Split;
    assert ROWS[0] == Bare && ROWS[1] == Unhandled && ROWS[2] == Symlink && ROWS[3] == AppLibrary;
    assert ROWS[4] == Basenames && ROWS[5] == Paths && ROWS[6] == Runtime && ROWS[7] == Bypass;
  }
}
