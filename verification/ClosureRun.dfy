/** One whole run of the generator (closure.py, main): from a walk of the dump and the previous
    list to the new list and the bypass makefile. */
module ClosureRun {
  import opened Text
  import opened Sorting
  import opened ModuleRenames
  import opened BypassMakefile
  import DumpWalk
  import BlobList

  /** The literal tables and header texts of the script. */
  datatype Config = Config(dump: DumpWalk.Tables, listHeader: seq<string>, makeHeader: seq<string>,
                           manualRenames: map<string, string>, disableDeps: set<string>,
                           overrides: map<string, string>, fixSoname: map<string, string>)

  /** The computed renames, overridden by the manual ones. */
  function RenamesFor(rels: seq<string>, manual: map<string, string>): map<string, string> {
    (map rel | rel in rels && IsRenamed(rels, rel) :: NewName(rel)) + manual
  }

  function MarksFor(rels: seq<string>, config: Config): BlobList.Tables {
    BlobList.Tables(config.listHeader, RenamesFor(rels, config.manualRenames), config.disableDeps,
                    config.overrides, config.fixSoname)
  }

  ghost function ListAfter(walk: seq<DumpWalk.Entry>, file: Option<string>, config: Config): string {
    var rels := DumpWalk.Listed(walk, config.dump);
    BlobList.Regenerated(rels, file, MarksFor(rels, config))
  }

  ghost function CopiedBy(walk: seq<DumpWalk.Entry>, config: Config): seq<string> {
    Sort(DumpWalk.BypassedIn(walk, config.dump), Less)
  }

  /** The makefile is written from one walk of the dump, the list from a second. */
  method Run(bypassWalk: seq<DumpWalk.Entry>, walk: seq<DumpWalk.Entry>, file: Option<string>, config: Config)
      returns (list: string, makefile: seq<string>)
    ensures list == ListAfter(walk, file, config)
    ensures makefile == MakeLines(config.makeHeader, CopiedBy(bypassWalk, config))
  {
    hide *;
    var bypassed := DumpWalk.CollectBypass(bypassWalk, config.dump);
    var lines, _ := EmitBypassMakefile(config.makeHeader, bypassed);
    makefile := lines;
    var rels, _, _, _ := DumpWalk.EnumerateDump(walk, config.dump);
    var prefixes := BlobList.LoadExistingPrefixes(file);
    var computed := ComputeModuleRenames(rels);
    var renames := computed + config.manualRenames;
    RenamesAre(rels, computed, config);
    list := BlobList.EmitProprietaryFiles(rels, prefixes,
      BlobList.Tables(config.listHeader, renames, config.disableDeps, config.overrides, config.fixSoname));
    RunIs(bypassWalk, walk, file, config);
  }

  lemma RenamesAre(rels: seq<string>, computed: map<string, string>, config: Config)
    requires forall rel :: rel in computed <==> IsRenamed(rels, rel)
    requires forall rel :: rel in computed ==> computed[rel] == NewName(rel)
    ensures MarksFor(rels, config) == BlobList.Tables(config.listHeader, computed + config.manualRenames,
                                                      config.disableDeps, config.overrides, config.fixSoname)
  {
    hide NewName;
    assert forall rel :: IsRenamed(rels, rel) ==> rel in rels;
    hide IsRenamed;
    assert computed == map rel | rel in rels && IsRenamed(rels, rel) :: NewName(rel);
  }

  lemma RunIs(bypassWalk: seq<DumpWalk.Entry>, walk: seq<DumpWalk.Entry>, file: Option<string>, config: Config)
    ensures var rels := Sort(DumpWalk.WithFate(walk, DumpWalk.Kept, config.dump), Less);
            ListAfter(walk, file, config) == BlobList.Emitted(rels, BlobList.LoadedFrom(file), MarksFor(rels, config))
    ensures CopiedBy(bypassWalk, config) == Sort(DumpWalk.BypassedIn(bypassWalk, config.dump), Less)
  {
    hide Sort, MarksFor, BlobList.Emitted, BlobList.LoadedFrom, DumpWalk.WithFate, DumpWalk.BypassedIn;
  }

  // ---- Names the format can carry ----

  ghost predicate CleanName(rel: string) {
    && rel != "" && !IsSpace(rel[|rel| - 1]) && Free(rel, ';') && Free(rel, '|') && BlobList.OnOneLine(rel)
  }

  ghost predicate CleanConfig(config: Config) {
    && BlobList.IsHeader(config.listHeader)
    && (forall x :: x in config.manualRenames ==> BlobList.OnOneLine(config.manualRenames[x]))
    && (forall x :: x in config.overrides ==> BlobList.OnOneLine(config.overrides[x]))
    && (forall x :: x in config.fixSoname ==> BlobList.OnOneLine(config.fixSoname[x]) && Free(config.fixSoname[x], '|'))
  }

  /** Only the files that are listed need such names. */
  ghost predicate CleanDump(walk: seq<DumpWalk.Entry>, config: Config) {
    && DumpWalk.EachOnce(walk)
    && forall e :: e in walk && !DumpWalk.Hidden(e.rel) && DumpWalk.FateOf(e, config.dump) == DumpWalk.Kept ==>
         CleanName(e.rel)
  }

  lemma {:induction false} PartsAreFree(s: string, sep: char, c: char)
    requires Free(s, c)
    ensures forall k :: 0 <= k < |Split(s, sep)| ==> Free(Split(s, sep)[k], c)
    decreases |s|
  {
    var i := FindChar(s, sep);
    if i != -1 {
      PartsAreFree(s[i + 1..], sep, c);
    }
  }

  lemma {:induction false} JoinIsFree(parts: seq<string>, sep: string, c: char)
    requires Free(sep, c) && forall k :: 0 <= k < |parts| ==> Free(parts[k], c)
    ensures Free(Join(parts, sep), c)
  {
    if |parts| > 1 {
      JoinIsFree(parts[1..], sep, c);
    }
  }

  /** A computed name has no character its path has not, but for the underscores. */
  lemma NewNameIsFree(rel: string, c: char)
    requires Free(rel, c) && c != '_'
    ensures Free(NewName(rel), c)
  {
    hide Split, Join, WithoutNumbers, Root;
    PartsAreFree(rel, '/', c);
    var subdirs := SubdirParts(rel);
    forall k | 0 <= k < |subdirs|
      ensures Free(subdirs[k], c)
    {
    }
    JoinIsFree(subdirs, "_", c);
    var root := WithoutNumbers(Root(Basename(rel)));
    assert root <= Basename(rel);
    assert forall i :: 0 <= i < |root| ==> root[i] == Basename(rel)[i];
  }

  lemma NewNameFits(rel: string)
    requires BlobList.OnOneLine(rel)
    ensures BlobList.OnOneLine(NewName(rel))
  {
    hide NewName, Free;
    NewNameIsFree(rel, '\n');
    NewNameIsFree(rel, '\r');
  }

  lemma ListedAre(walk: seq<DumpWalk.Entry>, config: Config)
    requires CleanDump(walk, config)
    ensures NoRepeats(DumpWalk.Listed(walk, config.dump))
    ensures forall x :: x in DumpWalk.Listed(walk, config.dump) ==> CleanName(x) && 'a' <= x[0] <= 'z'
  {
    hide CleanName, Sort, Less, DumpWalk.EachOnce, DumpWalk.FateOf, DumpWalk.Hidden, NoRepeats, Ascending, IsOrder;
    var kept := DumpWalk.WithFate(walk, DumpWalk.Kept, config.dump);
    LessIsOrder();
    DumpWalk.ListedDependsOnMembers(walk, walk, config.dump);
    AscendingHasNoRepeats(DumpWalk.Listed(walk, config.dump), Less);
    SortMembers(kept, Less);
    SameMembers(DumpWalk.Listed(walk, config.dump), kept);
    forall x | x in kept
      ensures CleanName(x) && x != "" && 'a' <= x[0] <= 'z'
    {
      var e :| e in walk && e.rel == x && !DumpWalk.Hidden(e.rel)
               && DumpWalk.FateOf(e, config.dump) == DumpWalk.Kept;
      DumpWalk.KeptIsInPartition(e, config.dump);
      DumpWalk.PartitionStartsSmall(x);
    }
  }

  lemma CleanTables(rels: seq<string>, config: Config)
    requires CleanConfig(config) && NoRepeats(rels)
    requires forall x :: x in rels ==> CleanName(x) && 'a' <= x[0] <= 'z'
    ensures BlobList.CleanInput(rels, MarksFor(rels, config))
  {
    hide NewName, IsRenamed, NoRepeats;
    var t := MarksFor(rels, config);
    forall x | x in rels
      ensures BlobList.CleanPath(x) && BlobList.CleanMarks(x, t)
    {
      NewNameFits(x);
    }
  }

  /** Whatever order the walks come in and whatever the list held before: from the second run on
      every run writes the same list, and already from the first exactly when no path with a mark
      carried a - or ; marker. */
  lemma RunsSettle(w1: seq<DumpWalk.Entry>, w2: seq<DumpWalk.Entry>, w3: seq<DumpWalk.Entry>,
                   file: Option<string>, config: Config)
    requires CleanDump(w1, config) && CleanDump(w2, config) && CleanDump(w3, config) && CleanConfig(config)
    requires forall e :: (e in w1 <==> e in w2) && (e in w1 <==> e in w3)
    ensures var rels := DumpWalk.Listed(w1, config.dump);
            var first := ListAfter(w1, file, config);
            var second := ListAfter(w2, Some(first), config);
            && ListAfter(w3, Some(second), config) == second
            && (second == first <==>
                forall x :: x in rels && BlobList.Marked(x, MarksFor(rels, config)) ==>
                  BlobList.Get(BlobList.LoadedFrom(file), x) == "")
  {
    hide *;
    var rels := DumpWalk.Listed(w1, config.dump);
    DumpsAgree(w1, w2, config);
    DumpsAgree(w1, w3, config);
    ListedAre(w1, config);
    CleanTables(rels, config);
    BlobList.RegenerationSettles(rels, file, MarksFor(rels, config));
    ListIs(w1, file, config);
    var first := ListAfter(w1, file, config);
    ListIs(w2, Some(first), config);
    var second := ListAfter(w2, Some(first), config);
    ListIs(w3, Some(second), config);
  }

  lemma DumpsAgree(a: seq<DumpWalk.Entry>, b: seq<DumpWalk.Entry>, config: Config)
    requires CleanDump(a, config) && CleanDump(b, config) && forall e :: e in a <==> e in b
    ensures DumpWalk.Listed(a, config.dump) == DumpWalk.Listed(b, config.dump)
  {
    hide DumpWalk.Listed, DumpWalk.EachOnce, DumpWalk.FateOf, DumpWalk.Hidden, CleanName;
    DumpWalk.ListedDependsOnMembers(a, b, config.dump);
  }

  lemma ListIs(walk: seq<DumpWalk.Entry>, file: Option<string>, config: Config)
    ensures var rels := DumpWalk.Listed(walk, config.dump);
            ListAfter(walk, file, config) == BlobList.Regenerated(rels, file, MarksFor(rels, config))
  {
    hide DumpWalk.Listed, BlobList.Regenerated, MarksFor;
  }

  // ---- The makefile of a run ----

  ghost predicate DumpIsTree(walk: seq<DumpWalk.Entry>) {
    forall e, f :: e in walk && f in walk ==> !Below(f.rel, e.rel)
  }

  /** Reading the makefile of a run back gives every bypassed file of the dump exactly once, in
      ascending order of path. */
  lemma RunCopiesBypassed(walk: seq<DumpWalk.Entry>, config: Config)
    requires DumpWalk.EachOnce(walk) && DumpIsTree(walk) && ASSIGNMENT !in config.makeHeader
    requires forall e :: e in walk && DumpWalk.Bypassed(e, config.dump) ==> EndsPlainly(e.rel)
    ensures var rels := CopiedBy(walk, config);
            && ReadCopies(MakeLines(config.makeHeader, rels), false) == Copies(rels)
            && Ascending(rels, Less)
            && forall e :: e in walk ==> (e.rel in rels <==> DumpWalk.Bypassed(e, config.dump))
  {
    hide DumpWalk.EachOnce, DumpWalk.Bypassed, EndsPlainly, Sort, Less, IsOrder, Ascending, NoRepeats, ReadCopies,
         MakeLines, Copies;
    var bypassed := DumpWalk.BypassedIn(walk, config.dump);
    var rels := CopiedBy(walk, config);
    DumpWalk.BypassHasNoRepeats(walk, config.dump);
    LessIsOrder();
    SortAscends(bypassed, Less);
    SortMembers(bypassed, Less);
    SameMembers(rels, bypassed);
    forall e | e in walk
      ensures e.rel in rels <==> DumpWalk.Bypassed(e, config.dump)
    {
      forall f | f in walk && f.rel == e.rel
        ensures f == e
      {
        DumpWalk.SamePathSameEntry(walk, e, f);
      }
    }
    CopiesAreUsable(walk, rels, config);
    MakefileReadsBack(config.makeHeader, rels);
  }

  lemma CopiesAreUsable(walk: seq<DumpWalk.Entry>, rels: seq<string>, config: Config)
    requires DumpIsTree(walk)
    requires forall e :: e in walk && DumpWalk.Bypassed(e, config.dump) ==> EndsPlainly(e.rel)
    requires forall x :: x in rels ==> exists e :: e in walk && e.rel == x && DumpWalk.Bypassed(e, config.dump)
    ensures IsTree(rels) && forall i :: 0 <= i < |rels| ==> EndsPlainly(rels[i])
  {
    hide EndsPlainly, DumpWalk.Bypassed;
    forall a, b | a in rels && b in rels
      ensures !Below(b, a)
    {
      var e :| e in walk && e.rel == a;
      var f :| f in walk && f.rel == b;
    }
    forall i | 0 <= i < |rels|
      ensures EndsPlainly(rels[i])
    {
      var x := rels[i];
      assert x in rels;
      var e :| e in walk && e.rel == x && DumpWalk.Bypassed(e, config.dump);
    }
  }

  /** The manual renames overrule the computed ones. */
  lemma ManualRenamesWin(rels: seq<string>, config: Config, rel: string)
    ensures var renames := MarksFor(rels, config).renames;
            && (rel in renames <==> rel in config.manualRenames || IsRenamed(rels, rel))
            && (rel in renames ==> renames[rel] == if rel in config.manualRenames then config.manualRenames[rel]
                                                   else NewName(rel))
  {
    hide NewName;
    assert IsRenamed(rels, rel) ==> rel in rels;
    hide IsRenamed;
  }

  // ---- What the theorems on runs ask of a dump and of the tables ----

  /** Paths met once each, and listed names without a final blank, a semicolon, a bar or a line end;
      in the tables no line end, and no bar in a new soname. */
  lemma WhatListsNeed(walk: seq<DumpWalk.Entry>, config: Config)
    ensures CleanDump(walk, config) <==>
            && (forall i, j :: 0 <= i < j < |walk| ==> walk[i].rel != walk[j].rel)
            && forall e :: e in walk && !DumpWalk.Hidden(e.rel) && DumpWalk.FateOf(e, config.dump) == DumpWalk.Kept ==>
                 && e.rel != "" && !IsSpace(e.rel[|e.rel| - 1])
                 && ';' !in e.rel && '|' !in e.rel && '\n' !in e.rel && '\r' !in e.rel
  {
    hide DumpWalk.Hidden, DumpWalk.FateOf, IsSpace;
  }

  lemma WhatTablesNeed(config: Config)
    ensures CleanConfig(config) <==>
            && (forall i :: 0 <= i < |config.listHeader| ==>
                  var line := config.listHeader[i];
                  '\n' !in line && '\r' !in line && (line == "" || line[0] == '#'))
            && (forall x :: x in config.manualRenames ==>
                  '\n' !in config.manualRenames[x] && '\r' !in config.manualRenames[x])
            && (forall x :: x in config.overrides ==> '\n' !in config.overrides[x] && '\r' !in config.overrides[x])
            && (forall x :: x in config.fixSoname ==>
                  '\n' !in config.fixSoname[x] && '\r' !in config.fixSoname[x] && '|' !in config.fixSoname[x])
  {
  }

  /** For the makefile: no file that is also a directory, and no final blank or backslash. */
  lemma WhatMakefilesNeed(walk: seq<DumpWalk.Entry>, rel: string)
    ensures DumpIsTree(walk) <==> forall e, f :: e in walk && f in walk ==> !(e.rel + "/" <= f.rel)
    ensures EndsPlainly(rel) <==> rel != "" && !IsSpace(rel[|rel| - 1]) && rel[|rel| - 1] != '\\'
  {
  }
}
