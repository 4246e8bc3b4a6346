/** Module names for files that share a basename (closure.py, compute_module_renames). */
module ModuleRenames {
  import opened Text

  // ---- os.path.splitext of a name without slashes ----

  /** Leading dots do not start an extension. */
  predicate HasExtension(name: string) {
    var dot := RFindChar(name, '.', |name|);
    dot > 0 && exists i :: 0 <= i < dot && name[i] != '.'
  }

  function Root(name: string): (r: string)
    ensures r <= name
  {
    if HasExtension(name) then name[..RFindChar(name, '.', |name|)] else name
  }

  function Extension(name: string): (e: string)
    ensures Root(name) + e == name
  {
    if HasExtension(name) then name[RFindChar(name, '.', |name|)..] else ""
  }

  predicate EndsInNumber(name: string) {
    |Extension(name)| > 1 && AllDigits(Extension(name)[1..])
  }

  function WithoutNumbers(name: string): (r: string)
    ensures r <= name && !EndsInNumber(r)
    decreases |name|
  {
    if EndsInNumber(name) then
      assert |Root(name)| + |Extension(name)| == |name|;
      WithoutNumbers(Root(name))
    else name
  }

  /** The loop peels numeric extensions until none is left. */
  method StripNumbers(bn: string) returns (root: string)
    ensures root == WithoutNumbers(Root(bn)) && root <= bn && !EndsInNumber(root)
  {
    root := Root(bn);
    while true
      invariant root <= bn && WithoutNumbers(root) == WithoutNumbers(Root(bn))
      decreases |root|
    {
      var r2, e2 := Root(root), Extension(root);
      if e2 != "" && e2[1..] != "" && AllDigits(e2[1..]) {
        assert |r2| + |e2| == |root|;
        root := r2;
      } else {
        break;
      }
    }
  }

  // ---- Names ----

  /** Where os.path.splitext cuts: at the last dot, unless only dots stand before it. */
  lemma CutsAtLastDot(a: string, b: string)
    requires Free(b, '.')
    ensures var name := a + "." + b;
            if exists i :: 0 <= i < |a| && a[i] != '.' then Root(name) == a && Extension(name) == "." + b
            else Root(name) == name && Extension(name) == ""
    ensures Root(b) == b && Extension(b) == ""
  {
    var name := a + "." + b;
    LastDotIs(a, b);
    hide RFindChar;
    assert HasExtension(name) <==> exists i :: 0 <= i < |a| && a[i] != '.' by {
      assert forall i :: 0 <= i < |a| ==> name[i] == a[i];
    }
    assert name[..|a|] == a && name[|a|..] == "." + b;
    hide HasExtension;
  }

  lemma LastDotIs(a: string, b: string)
    requires Free(b, '.')
    ensures RFindChar(a + "." + b, '.', |a + "." + b|) == |a| && !HasExtension(b)
  {
    var name := a + "." + b;
    assert name[|a|] == '.' && forall i :: |a| < i < |name| ==> name[i] == b[i - |a| - 1];
  }

  /** What is dropped from a name: every number behind its last dot, as long as there is one. */
  lemma NumbersAreDropped(a: string, b: string)
    requires Free(b, '.')
    ensures WithoutNumbers(a + "." + b) ==
            if b != "" && AllDigits(b) && exists i :: 0 <= i < |a| && a[i] != '.' then WithoutNumbers(a)
            else a + "." + b
    ensures WithoutNumbers(b) == b
  {
    CutsAtLastDot(a, b);
    hide Root, Extension;
    assert ("." + b)[1..] == b;
  }

  predicate IsLibDir(part: string) {
    "lib" <= part
  }

  /** Directly under a library directory of the vendor partition. */
  predicate IsCanonical(rel: string) {
    var parts := Split(rel, '/');
    |parts| == 3 && parts[0] == "vendor" && IsLibDir(parts[1])
  }

  /** The directories the name is told apart by. */
  function SubdirParts(rel: string): seq<string> {
    var parts := Split(rel, '/');
    var n := |parts| - 1;
    if |parts| >= 4 && parts[0] == "vendor" && IsLibDir(parts[1]) then parts[2..n]
    else if n <= 1 then []
    else parts[1..n]
  }

  /** replace('-', '_').replace('.', '_') */
  function Tamed(s: string): (r: string)
    ensures |r| == |s|
    ensures forall i :: 0 <= i < |s| ==> r[i] == if s[i] == '-' || s[i] == '.' then '_' else s[i]
  {
    seq(|s|, i requires 0 <= i < |s| => if s[i] == '-' || s[i] == '.' then '_' else s[i])
  }

  function NewName(rel: string): string {
    WithoutNumbers(Root(Basename(rel))) + "_" + Tamed(Join(SubdirParts(rel), "_"))
  }

  /** canonical[bn]: the last canonical path with this basename. */
  function CanonicalFor(rels: seq<string>, bn: string): Option<string> {
    if rels == [] then None
    else
      var n := |rels| - 1;
      if IsCanonical(rels[n]) && Basename(rels[n]) == bn then Some(rels[n]) else CanonicalFor(rels[..n], bn)
  }

  predicate IsRenamed(rels: seq<string>, rel: string) {
    rel in rels && CanonicalFor(rels, Basename(rel)).Some? && CanonicalFor(rels, Basename(rel)) != Some(rel)
  }

  method IndexCanonical(rels: seq<string>) returns (canonical: map<string, string>)
    ensures forall bn :: CanonicalFor(rels, bn) == if bn in canonical then Some(canonical[bn]) else None
  {
    hide IsCanonical, Basename;
    canonical := map[];
    for i := 0 to |rels|
      invariant forall bn :: CanonicalFor(rels[..i], bn) == if bn in canonical then Some(canonical[bn]) else None
    {
      assert rels[..i + 1][..i] == rels[..i];
      if IsCanonical(rels[i]) {
        canonical := canonical[Basename(rels[i]) := rels[i]];
      }
    }
    assert rels[..|rels|] == rels;
  }

  method ComputeModuleRenames(rels: seq<string>) returns (renames: map<string, string>)
    ensures forall rel :: rel in renames <==> IsRenamed(rels, rel)
    ensures forall rel :: rel in renames ==> renames[rel] == NewName(rel)
  {
    hide Basename, CanonicalFor, WithoutNumbers, Root, SubdirParts, EndsInNumber;
    var canonical := IndexCanonical(rels);
    renames := map[];
    for i := 0 to |rels|
      invariant forall rel :: rel in renames <==> rel in rels[..i] && IsRenamed(rels, rel)
      invariant forall rel :: rel in renames ==> renames[rel] == NewName(rel)
    {
      assert rels[..i + 1] == rels[..i] + [rels[i]];
      var rel := rels[i];
      var bn := Basename(rel);
      if bn !in canonical || rel == canonical[bn] {
        continue;
      }
      var root := StripNumbers(bn);
      renames := renames[rel := root + "_" + Tamed(Join(SubdirParts(rel), "_"))];
    }
  }

  lemma {:induction false} CanonicalForIs(rels: seq<string>, bn: string)
    ensures match CanonicalFor(rels, bn)
            case Some(c) => c in rels && IsCanonical(c) && Basename(c) == bn
            case None => forall rel :: rel in rels ==> !(IsCanonical(rel) && Basename(rel) == bn)
  {
    hide IsCanonical, Basename;
    if rels != [] {
      CanonicalForIs(rels[..|rels| - 1], bn);
      assert rels == rels[..|rels| - 1] + [rels[|rels| - 1]];
    }
  }

  /** Of the files that share a basename exactly one keeps it, a canonical one, when any of them
      is canonical; otherwise all keep it. */
  lemma {:induction false} OneKeepsItsName(rels: seq<string>, bn: string)
    ensures match CanonicalFor(rels, bn)
            case Some(c) =>
              && c in rels && IsCanonical(c) && Basename(c) == bn
              && forall rel :: rel in rels && Basename(rel) == bn ==> (IsRenamed(rels, rel) <==> rel != c)
            case None =>
              && (forall rel :: rel in rels && Basename(rel) == bn ==> !IsCanonical(rel))
              && (forall rel :: rel in rels && Basename(rel) == bn ==> !IsRenamed(rels, rel))
  {
    hide IsCanonical, Basename;
    CanonicalForIs(rels, bn);
  }

  // ---- Which names collide ----

  /** The words a name is told apart by: the directories cut at every underscore, dash and dot. */
  function Words(dirs: seq<string>): seq<string> {
    if dirs == [] then [""]
    else if |dirs| == 1 then Split(Tamed(dirs[0]), '_')
    else Split(Tamed(dirs[0]), '_') + Words(dirs[1..])
  }

  lemma TamedJoin(a: string, b: string)
    ensures Tamed(a + "_" + b) == Tamed(a) + ['_'] + Tamed(b)
  {
  }

  /** Cutting the joined name gives the words. */
  lemma {:induction false} SplitOfName(dirs: seq<string>)
    ensures Split(Tamed(Join(dirs, "_")), '_') == Words(dirs)
  {
    hide Tamed, Split;
    if dirs == [] {
      NothingSplit();
    } else if |dirs| > 1 {
      TamedJoin(dirs[0], Join(dirs[1..], "_"));
      SplitConcat(Tamed(dirs[0]), Tamed(Join(dirs[1..], "_")), '_');
      SplitOfName(dirs[1..]);
    }
  }

  lemma NothingSplit()
    ensures Split(Tamed(""), '_') == [""]
  {
  }

  /** The file name without its extension and the numbers before it. */
  function Stem(rel: string): string {
    WithoutNumbers(Root(Basename(rel)))
  }

  function AllWords(rel: string): seq<string> {
    Split(Stem(rel), '_') + Words(SubdirParts(rel))
  }

  lemma SplitOfNewName(rel: string)
    ensures Split(NewName(rel), '_') == AllWords(rel)
  {
    hide Split, WithoutNumbers, Root, Join, Basename, SubdirParts, Tamed, Words;
    var dirs := Tamed(Join(SubdirParts(rel), "_"));
    SplitOfName(SubdirParts(rel));
    SplitConcat(Stem(rel), dirs, '_');
    assert NewName(rel) == Stem(rel) + ['_'] + dirs;
  }

  /** Exactly when two files get the same name: stem and directories consist of the same words,
      however these are spread over them. */
  lemma NamesAgreeIff(rel: string, rel': string)
    ensures NewName(rel) == NewName(rel') <==> AllWords(rel) == AllWords(rel')
  {
    hide Split, NewName, AllWords;
    SplitOfNewName(rel);
    SplitOfNewName(rel');
    SplitParts(NewName(rel), '_');
    SplitParts(NewName(rel'), '_');
  }

  /** For files with one stem, as copies of a file, the directories decide. */
  lemma CopiesAgreeIff(rel: string, rel': string)
    requires Stem(rel) == Stem(rel')
    ensures NewName(rel) == NewName(rel') <==> Words(SubdirParts(rel)) == Words(SubdirParts(rel'))
  {
    hide NewName, Split, Words, SubdirParts, Stem;
    NamesAgreeIff(rel, rel');
    SameTail(Split(Stem(rel), '_'), Words(SubdirParts(rel)), Words(SubdirParts(rel')));
  }

  /** No underscore, and nothing that is turned into one. */
  predicate PlainDir(dir: string) {
    dir != "" && Free(dir, '_') && Free(dir, '-') && Free(dir, '.')
  }

  predicate PlainDirs(dirs: seq<string>) {
    forall i :: 0 <= i < |dirs| ==> PlainDir(dirs[i])
  }

  lemma {:induction false} WordsOfPlain(dirs: seq<string>)
    requires PlainDirs(dirs)
    ensures Words(dirs) == if dirs == [] then [""] else dirs
  {
    hide Split, Tamed, PlainDir;
    if dirs != [] {
      PlainWord(dirs[0]);
      WordsOfPlain(dirs[1..]);
    }
  }

  lemma PlainWord(dir: string)
    requires PlainDir(dir)
    ensures Split(Tamed(dir), '_') == [dir]
  {
    assert Tamed(dir) == dir && FindChar(dir, '_') == -1;
  }

  /** So plain directory names tell copies apart: the joined name can be taken apart again. */
  lemma NamesTellSubdirs(rel: string, rel': string)
    requires Stem(rel) == Stem(rel')
    requires forall dir :: dir in SubdirParts(rel) + SubdirParts(rel') ==>
               dir != "" && Free(dir, '_') && Free(dir, '-') && Free(dir, '.')
    ensures NewName(rel) == NewName(rel') <==> SubdirParts(rel) == SubdirParts(rel')
  {
    var a, b := SubdirParts(rel), SubdirParts(rel');
    hide *;
    AllArePlain(a, b);
    CopiesAgreeIff(rel, rel');
    WordsOfPlain(a);
    WordsOfPlain(b);
  }

  lemma AllArePlain(a: seq<string>, b: seq<string>)
    requires forall dir :: dir in a + b ==> dir != "" && Free(dir, '_') && Free(dir, '-') && Free(dir, '.')
    ensures PlainDirs(a) && PlainDirs(b) && (a != [] ==> a[0] != "") && (b != [] ==> b[0] != "")
  {
    hide Free;
    assert forall i :: 0 <= i < |a| ==> a[i] in a + b;
    assert forall i :: 0 <= i < |b| ==> b[i] in a + b;
  }

  /** A path under the library directory of some architecture, such as lib or lib64. */
  function LibPath(abi: string, dirs: seq<string>, bn: string): string {
    Join(["vendor", "lib" + abi] + dirs + [bn], "/")
  }

  predicate PathParts(abi: string, dirs: seq<string>, bn: string) {
    Free(abi, '/') && Free(bn, '/') && forall i :: 0 <= i < |dirs| ==> Free(dirs[i], '/')
  }

  lemma LibPathParts(abi: string, dirs: seq<string>, bn: string)
    requires PathParts(abi, dirs, bn)
    ensures Split(LibPath(abi, dirs, bn), '/') == ["vendor", "lib" + abi] + dirs + [bn]
    ensures Basename(LibPath(abi, dirs, bn)) == bn && (IsCanonical(LibPath(abi, dirs, bn)) <==> dirs == [])
    ensures dirs != [] ==> SubdirParts(LibPath(abi, dirs, bn)) == dirs
  {
    var parts := ["vendor", "lib" + abi] + dirs + [bn];
    assert IsLibDir("lib" + abi) && Free("lib" + abi, '/');
    forall i | 0 <= i < |parts|
      ensures Free(parts[i], '/')
    {
    }
    SplitOfJoin(parts, '/');
    hide Split, Join;
    assert parts[2..|parts| - 1] == dirs && |parts| == |dirs| + 3;
  }

  /** Paths written out. */
  lemma LibPathIs(abi: string, dirs: seq<string>, bn: string)
    ensures LibPath(abi, dirs, bn) ==
            "vendor/lib" + abi + "/" + (if dirs == [] then "" else Join(dirs, "/") + "/") + bn
  {
    var lib := ["vendor", "lib" + abi];
    LibJoined(abi);
    OneJoined(bn);
    hide Join;
    if dirs == [] {
      assert lib + dirs + [bn] == lib + [bn];
      JoinConcat(lib, [bn], "/");
    } else {
      JoinConcat(lib + dirs, [bn], "/");
      JoinConcat(lib, dirs, "/");
    }
  }

  lemma LibJoined(abi: string)
    ensures Join(["vendor", "lib" + abi], "/") == "vendor/lib" + abi
  {
    var lib := ["vendor", "lib" + abi];
    assert lib[1..] == ["lib" + abi];
    assert "vendor" + "/" + "lib" == "vendor/lib";
    hide *;
    OneJoined("lib" + abi);
    TwoJoined("vendor", "lib" + abi);
    assert "vendor" + "/" + ("lib" + abi) == "vendor" + "/" + "lib" + abi;
  }

  lemma TwoJoined(a: string, b: string)
    ensures Join([a, b], "/") == a + "/" + b
  {
    assert [a, b][1..] == [b];
  }

  lemma OneJoined(bn: string)
    ensures Join([bn], "/") == bn
  {
  }

  /** The canonical paths are exactly the files directly in a library directory of the vendor
      partition. */
  lemma CanonicalIff(rel: string)
    ensures IsCanonical(rel) <==>
            exists abi, bn :: Free(abi, '/') && Free(bn, '/') && rel == "vendor/lib" + abi + "/" + bn
  {
    if IsCanonical(rel) {
      var abi := CanonicalOf(rel, Basename(rel));
      BasenameIsFree(rel);
    }
    if abi, bn :| Free(abi, '/') && Free(bn, '/') && rel == "vendor/lib" + abi + "/" + bn {
      CanonicalSpelled(abi, bn);
    }
  }

  lemma BasenameIsFree(rel: string)
    ensures Free(Basename(rel), '/')
  {
    SplitParts(rel, '/');
    hide Split;
  }

  lemma CanonicalIsLibPath(rel: string) returns (abi: string, bn: string)
    requires IsCanonical(rel)
    ensures Free(abi, '/') && Free(bn, '/') && rel == LibPath(abi, [], bn)
  {
    var parts := Split(rel, '/');
    SplitParts(rel, '/');
    abi, bn := parts[1][3..], parts[2];
    hide Split, Join;
    assert parts[1] == "lib" + abi && Free(parts[1], '/') && Free(parts[2], '/');
    assert parts == ["vendor", "lib" + abi] + [] + [bn];
  }

  /** Anywhere else all directories after the first tell a file apart. */
  lemma OtherSubdirs(top: string, dirs: seq<string>, bn: string)
    requires Free(top, '/') && Free(bn, '/') && forall i :: 0 <= i < |dirs| ==> Free(dirs[i], '/')
    requires top == "vendor" && |dirs| >= 2 ==> !("lib" <= dirs[0])
    ensures SubdirParts(Join([top] + dirs + [bn], "/")) == dirs && SubdirParts(bn) == []
  {
    hide *;
    AllFree(top, dirs, bn);
    SplitOfJoin([top] + dirs + [bn], '/');
    SubdirsFrom(Join([top] + dirs + [bn], "/"), top, dirs, bn);
    NoSubdirs(bn);
  }

  lemma AllFree(top: string, dirs: seq<string>, bn: string)
    requires Free(top, '/') && Free(bn, '/') && forall i :: 0 <= i < |dirs| ==> Free(dirs[i], '/')
    ensures var parts := [top] + dirs + [bn]; forall i :: 0 <= i < |parts| ==> Free(parts[i], '/')
  {
    hide Free;
  }

  lemma NoSubdirs(bn: string)
    requires Free(bn, '/')
    ensures SubdirParts(bn) == []
  {
    SplitOfJoin([bn], '/');
    OneJoined(bn);
    hide Split, Join;
  }

  lemma SubdirsFrom(rel: string, top: string, dirs: seq<string>, bn: string)
    requires Split(rel, '/') == [top] + dirs + [bn]
    requires top == "vendor" && |dirs| >= 2 ==> !("lib" <= dirs[0])
    ensures SubdirParts(rel) == dirs
  {
    hide Split;
    var parts := [top] + dirs + [bn];
    assert |parts| == |dirs| + 2 && parts[1..|parts| - 1] == dirs && parts[0] == top;
    assert dirs != [] ==> parts[1] == dirs[0];
  }

  /** Of the files that share a basename exactly one keeps it, one directly in a library directory,
      when there is one; otherwise all keep it. */
  lemma OneCanonicalKeepsItsName(rels: seq<string>, bn: string)
    requires Free(bn, '/')
    ensures if exists abi :: Free(abi, '/') && "vendor/lib" + abi + "/" + bn in rels
            then exists abi :: Free(abi, '/') && "vendor/lib" + abi + "/" + bn in rels
                   && forall rel :: rel in rels && Basename(rel) == bn ==>
                        (IsRenamed(rels, rel) <==> rel != "vendor/lib" + abi + "/" + bn)
            else forall rel :: rel in rels && Basename(rel) == bn ==> !IsRenamed(rels, rel)
  {
    OneKeepsItsName(rels, bn);
    forall abi | Free(abi, '/')
      ensures IsCanonical("vendor/lib" + abi + "/" + bn) && Basename("vendor/lib" + abi + "/" + bn) == bn
    {
      CanonicalSpelled(abi, bn);
    }
    hide LibPath, IsRenamed, CanonicalFor, IsCanonical, Basename;
    match CanonicalFor(rels, bn)
    case Some(c) =>
      var abi := CanonicalOf(c, bn);
    case None =>
  }

  /** And of several such files it is the last one of the list that keeps its name. */
  lemma LastCanonicalKeepsItsName(rels: seq<string>, k: nat, abi: string, bn: string)
    requires k < |rels| && Free(abi, '/') && Free(bn, '/') && rels[k] == "vendor/lib" + abi + "/" + bn
    requires forall j, other :: k < j < |rels| && Free(other, '/') ==> rels[j] != "vendor/lib" + other + "/" + bn
    ensures forall rel :: rel in rels && Basename(rel) == bn ==> (IsRenamed(rels, rel) <==> rel != rels[k])
  {
    CanonicalSpelled(abi, bn);
    LastCanonical(rels, k, bn);
    hide CanonicalFor, Basename;
  }

  lemma {:induction false} LastCanonical(rels: seq<string>, k: nat, bn: string)
    requires k < |rels| && IsCanonical(rels[k]) && Basename(rels[k]) == bn
    requires forall j, other :: k < j < |rels| && Free(other, '/') ==> rels[j] != "vendor/lib" + other + "/" + bn
    ensures CanonicalFor(rels, bn) == Some(rels[k])
    decreases |rels|
  {
    hide IsCanonical, Basename;
    var n := |rels| - 1;
    if k < n {
      if IsCanonical(rels[n]) && Basename(rels[n]) == bn {
        var other := CanonicalOf(rels[n], bn);
      }
      LastCanonical(rels[..n], k, bn);
    }
  }

  lemma CanonicalSpelled(abi: string, bn: string)
    requires Free(abi, '/') && Free(bn, '/')
    ensures IsCanonical("vendor/lib" + abi + "/" + bn) && Basename("vendor/lib" + abi + "/" + bn) == bn
  {
    hide LibPath, IsCanonical, Basename, Split;
    LibPathIs(abi, [], bn);
    LibPathParts(abi, [], bn);
    assert "vendor/lib" + abi + "/" + "" + bn == "vendor/lib" + abi + "/" + bn;
  }

  lemma CanonicalOf(c: string, bn: string) returns (abi: string)
    requires IsCanonical(c) && Basename(c) == bn
    ensures Free(abi, '/') && c == "vendor/lib" + abi + "/" + bn
  {
    var bn';
    abi, bn' := CanonicalIsLibPath(c);
    hide LibPath, IsCanonical, Basename, Split;
    LibPathIs(abi, [], bn');
    LibPathParts(abi, [], bn');
    assert "vendor/lib" + abi + "/" + "" + bn == "vendor/lib" + abi + "/" + bn;
  }

  /** Under one library directory two copies with plain directory names never collide; under
      two they do exactly when they lie in the same subdirectories. */
  lemma DeepNamesTellPaths(abi: string, dirs: seq<string>, abi': string, dirs': seq<string>, bn: string)
    requires PathParts(abi, dirs, bn) && PathParts(abi', dirs', bn) && dirs != [] && dirs' != []
    requires forall dir :: dir in dirs + dirs' ==>
               dir != "" && Free(dir, '_') && Free(dir, '-') && Free(dir, '.')
    ensures var one, two := LibPath(abi, dirs, bn), LibPath(abi', dirs', bn);
            && (NewName(one) == NewName(two) <==> dirs == dirs')
            && (abi == abi' ==> (NewName(one) == NewName(two) <==> one == two))
  {
    hide LibPath, PathParts, NewName, SubdirParts, Basename, Root, WithoutNumbers, IsCanonical, Free;
    LibPathParts(abi, dirs, bn);
    LibPathParts(abi', dirs', bn);
    NamesTellSubdirs(LibPath(abi, dirs, bn), LibPath(abi', dirs', bn));
    LibPathTells(abi, dirs, abi', dirs', bn);
  }

  lemma LibPathTells(abi: string, dirs: seq<string>, abi': string, dirs': seq<string>, bn: string)
    requires PathParts(abi, dirs, bn) && PathParts(abi', dirs', bn)
    ensures LibPath(abi, dirs, bn) == LibPath(abi', dirs', bn) <==> abi == abi' && dirs == dirs'
  {
    hide LibPath, Split;
    LibPathParts(abi, dirs, bn);
    LibPathParts(abi', dirs', bn);
    var p, q := ["vendor", "lib" + abi] + dirs + [bn], ["vendor", "lib" + abi'] + dirs' + [bn];
    assert p[1] == "lib" + abi && q[1] == "lib" + abi';
    assert abi == p[1][3..] && abi' == q[1][3..];
    assert dirs == p[2..|p| - 1] && dirs' == q[2..|q| - 1];
  }

  lemma JoinOfTwo(a: string, b: string)
    ensures Words([a, b]) == Words([a + "_" + b])
  {
    hide Split, Tamed;
    assert [a, b][1..] == [b];
    TamedJoin(a, b);
    SplitConcat(Tamed(a), Tamed(b), '_');
  }

  /** A file in a subdirectory is renamed when the list has one of its name in a library directory. */
  lemma DeepIsRenamed(rels: seq<string>, abi: string, abi': string, dirs: seq<string>, bn: string)
    requires PathParts(abi, dirs, bn) && PathParts(abi', [], bn) && dirs != []
    requires LibPath(abi, dirs, bn) in rels && LibPath(abi', [], bn) in rels
    ensures IsRenamed(rels, LibPath(abi, dirs, bn)) && SubdirParts(LibPath(abi, dirs, bn)) == dirs
    ensures Basename(LibPath(abi, dirs, bn)) == bn
  {
    hide PathParts, LibPath, Basename, SubdirParts, CanonicalFor, IsCanonical, Split;
    LibPathParts(abi, dirs, bn);
    LibPathParts(abi', [], bn);
    CanonicalForIs(rels, bn);
  }

  /** Copies collide, that is two different files are renamed to the same name, in a directory whose
      name holds an underscore and in two nested ones, */
  lemma JoinedDirsCollide(abi: string, a: string, b: string, bn: string)
    requires PathParts(abi, [a, b], bn)
    ensures var one, two := LibPath(abi, [a + "_" + b], bn), LibPath(abi, [a, b], bn);
            var rels := [LibPath(abi, [], bn), one, two];
            one != two && IsRenamed(rels, one) && IsRenamed(rels, two) && NewName(one) == NewName(two)
  {
    var one, two := LibPath(abi, [a + "_" + b], bn), LibPath(abi, [a, b], bn);
    var rels := [LibPath(abi, [], bn), one, two];
    assert [a, b][0] == a && [a, b][1] == b && Free(a + "_" + b, '/') && [a, b] != [a + "_" + b];
    assert rels[0] in rels && rels[1] in rels && rels[2] in rels;
    hide IsRenamed, NewName, LibPath, SubdirParts, Basename, Root, WithoutNumbers, Words, Free;
    DeepIsRenamed(rels, abi, abi, [a + "_" + b], bn);
    DeepIsRenamed(rels, abi, abi, [a, b], bn);
    JoinOfTwo(a, b);
    CopiesAgreeIff(one, two);
  }

  /** and in equal subdirectories of two library directories. */
  lemma LibraryDirsCollide(abi: string, abi': string, dirs: seq<string>, bn: string)
    requires PathParts(abi, dirs, bn) && PathParts(abi', dirs, bn) && dirs != [] && abi != abi'
    ensures var one, two := LibPath(abi, dirs, bn), LibPath(abi', dirs, bn);
            var rels := [LibPath(abi, [], bn), one, two];
            one != two && IsRenamed(rels, one) && IsRenamed(rels, two) && NewName(one) == NewName(two)
  {
    var one, two := LibPath(abi, dirs, bn), LibPath(abi', dirs, bn);
    var rels := [LibPath(abi, [], bn), one, two];
    assert rels[0] in rels && rels[1] in rels && rels[2] in rels;
    hide IsRenamed, NewName, LibPath, SubdirParts, Basename, Root, WithoutNumbers, Words, Free;
    DeepIsRenamed(rels, abi, abi, dirs, bn);
    DeepIsRenamed(rels, abi', abi, dirs, bn);
    LibPathTells(abi, dirs, abi', dirs, bn);
    CopiesAgreeIff(one, two);
  }

  /** Files whose names differ only in what follows the last dot, as in two version numbers,
      collide in one and the same directory. */
  lemma ExtensionsCollide(abi: string, dirs: seq<string>, root: string, x: string, y: string)
    requires PathParts(abi, dirs, root + "." + x) && PathParts(abi, dirs, root + "." + y) && dirs != [] && x != y
    requires Free(x, '.') && Free(y, '.') && exists i :: 0 <= i < |root| && root[i] != '.'
    ensures var one, two := LibPath(abi, dirs, root + "." + x), LibPath(abi, dirs, root + "." + y);
            var rels := [LibPath(abi, [], root + "." + x), LibPath(abi, [], root + "." + y), one, two];
            one != two && IsRenamed(rels, one) && IsRenamed(rels, two) && NewName(one) == NewName(two)
  {
    var bn, bn' := root + "." + x, root + "." + y;
    var one, two := LibPath(abi, dirs, bn), LibPath(abi, dirs, bn');
    var rels := [LibPath(abi, [], bn), LibPath(abi, [], bn'), one, two];
    assert rels[0] in rels && rels[1] in rels && rels[2] in rels && rels[3] in rels;
    RootOfDotted(root, x);
    RootOfDotted(root, y);
    assert bn[|root| + 1..] == x && bn'[|root| + 1..] == y;
    hide IsRenamed, NewName, LibPath, SubdirParts, Basename, Root, WithoutNumbers, Words, Free;
    DeepIsRenamed(rels, abi, abi, dirs, bn);
    DeepIsRenamed(rels, abi, abi, dirs, bn');
    CopiesAgreeIff(one, two);
  }

  lemma RootOfDotted(root: string, x: string)
    requires Free(x, '.') && exists i :: 0 <= i < |root| && root[i] != '.'
    ensures Root(root + "." + x) == root
  {
    var s := root + "." + x;
    var i :| 0 <= i < |root| && root[i] != '.';
    assert s[i] == root[i] && s[|root|] == '.';
    assert forall k :: |root| < k < |s| ==> s[k] == x[k - |root| - 1];
    assert RFindChar(s, '.', |s|) == |root|;
    assert s[..|root|] == root;
  }

  // ---- The new names written out ----

  lemma NumberDropped(root: string, digits: string)
    requires root != "" && Free(root, '.') && digits != "" && AllDigits(digits)
    ensures WithoutNumbers(root + "." + digits) == root
  {
    assert root[0] != '.' && Free(digits, '.');
    NoExtension(root);
    ExtensionOfDotted(root, digits);
    assert ("." + digits)[1..] == digits;
    hide Root, Extension;
    assert EndsInNumber(root + "." + digits);
  }

  lemma WordKept(root: string)
    requires root != "" && Free(root, '.')
    ensures WithoutNumbers(root + ".so") == root + ".so"
  {
    assert root[0] != '.';
    ExtensionOfDotted(root, "so");
    assert root + "." + "so" == root + ".so" && ("." + "so")[1..] == "so" && !IsDigit("so"[0]);
    hide Root, Extension;
    assert !EndsInNumber(root + ".so");
  }

  lemma NoExtension(root: string)
    requires Free(root, '.')
    ensures Root(root) == root && Extension(root) == "" && WithoutNumbers(root) == root
  {
  }

  lemma ExtensionOfDotted(root: string, x: string)
    requires Free(x, '.') && exists i :: 0 <= i < |root| && root[i] != '.'
    ensures Root(root + "." + x) == root && Extension(root + "." + x) == "." + x
  {
    RootOfDotted(root, x);
    var s := root + "." + x;
    hide Root, Extension;
    assert root + Extension(s) == s == root + ("." + x);
    SameTail(root, Extension(s), "." + x);
  }

  /** A renamed library is called by its name without extension, an underscore and its directories,
      joined; a number before the extension is dropped, a number behind it takes its place. */
  lemma NamesAreSpelled(abi: string, dirs: seq<string>, root: string, digits: string)
    requires PathParts(abi, dirs, root) && dirs != [] && root != "" && Free(root, '.')
    requires digits != "" && AllDigits(digits)
    ensures var joined := "_" + Tamed(Join(dirs, "_"));
            && NewName(LibPath(abi, dirs, root + ".so")) == root + joined
            && NewName(LibPath(abi, dirs, root + "." + digits + ".so")) == root + joined
            && NewName(LibPath(abi, dirs, root + ".so." + digits)) == root + ".so" + joined
  {
    hide *;
    SpelledStems(root, digits);
    StillParts(abi, dirs, root, digits);
    NameFromStem(abi, dirs, root + ".so", root);
    NameFromStem(abi, dirs, root + "." + digits + ".so", root);
    NameFromStem(abi, dirs, root + ".so." + digits, root + ".so");
  }

  lemma StillParts(abi: string, dirs: seq<string>, root: string, digits: string)
    requires PathParts(abi, dirs, root) && AllDigits(digits)
    ensures PathParts(abi, dirs, root + ".so") && PathParts(abi, dirs, root + "." + digits + ".so")
    ensures PathParts(abi, dirs, root + ".so." + digits)
  {
  }

  lemma NameFromStem(abi: string, dirs: seq<string>, bn: string, stem: string)
    requires PathParts(abi, dirs, bn) && dirs != [] && WithoutNumbers(Root(bn)) == stem
    ensures NewName(LibPath(abi, dirs, bn)) == stem + ("_" + Tamed(Join(dirs, "_")))
  {
    hide LibPath, PathParts, Root, WithoutNumbers, SubdirParts, Basename, IsCanonical, Split, Join, Tamed;
    LibPathParts(abi, dirs, bn);
  }

  lemma SpelledStems(root: string, digits: string)
    requires root != "" && Free(root, '.') && digits != "" && AllDigits(digits)
    ensures WithoutNumbers(Root(root + ".so")) == root && WithoutNumbers(Root(root + "." + digits + ".so")) == root
    ensures WithoutNumbers(Root(root + ".so." + digits)) == root + ".so"
  {
    NoExtension(root);
    NumberDropped(root, digits);
    WordKept(root);
    SpelledRoots(root, digits);
    hide *;
  }

  lemma SpelledRoots(root: string, digits: string)
    requires root != "" && Free(root, '.') && AllDigits(digits)
    ensures Root(root + ".so") == root && Root(root + "." + digits + ".so") == root + "." + digits
    ensures Root(root + ".so." + digits) == root + ".so"
  {
    assert root[0] != '.' && (root + "." + digits)[0] == root[0] && (root + ".so")[0] == root[0];
    assert Free(digits, '.') && Free("so", '.');
    assert root + "." + "so" == root + ".so" && root + ".so" + "." + digits == root + ".so." + digits;
    assert root + "." + digits + "." + "so" == root + "." + digits + ".so";
    hide Root;
    RootOfDotted(root, "so");
    RootOfDotted(root + "." + digits, "so");
    RootOfDotted(root + ".so", digits);
  }
}
