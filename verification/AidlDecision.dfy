/** Deciding which prebuilts the source replaces (verify_aidl_versions.py, main), and what
    freezing an interface does to the facts they rest on. */
module AidlDecision {
  import opened Text
  import opened AidlVersions

  datatype Action = Drop | Keep | Unknown

  /** A prebuilt: the version in its file name and the block found for its interface, if any. */
  datatype Candidate = Candidate(version: nat, block: Option<string>)

  function Built(f: Facts): set<nat> {
    (set v | v in f.versions) + (match Current(f) case Some(c) => {c} case None => {})
  }

  /** The built versions are the listed ones and, for an interface that can still be frozen, the one
      after them. */
  lemma BuiltIff(f: Facts, v: nat)
    ensures v in Built(f) <==>
            || v in f.versions
            || (!f.unstable && f.frozen != Some(true) && v > 0 && v - 1 in f.versions
                && forall w :: w in f.versions ==> w < v)
  {
    hide Current;
    CurrentIsNext(f, v);
  }

  /** May vendor processes use the library built from source? */
  predicate Consumable(f: Facts) {
    f.vendorAvailable == Some(true) || f.isVintf
  }

  ghost predicate Located(c: Candidate) {
    c.block.Some? && c.block.value != ""
  }

  /** The library is dropped exactly when the source builds this very version and vendor
      processes may use it; without a located block nothing is concluded. */
  ghost predicate Justified(c: Candidate, a: Action) {
    && (a.Unknown? <==> !Located(c))
    && (a.Drop? <==> Located(c) && var f := FactsIn(c.block.value); c.version in Built(f) && Consumable(f))
  }

  ghost function CountOf(rows: seq<Action>, a: Action): nat {
    |set i | 0 <= i < |rows| && rows[i] == a|
  }

  lemma CountNext(rows: seq<Action>, a: Action, next: Action)
    ensures CountOf(rows + [next], a) == CountOf(rows, a) + (if next == a then 1 else 0)
  {
    var all := rows + [next];
    var before, after := (set i | 0 <= i < |rows| && rows[i] == a), (set i | 0 <= i < |all| && all[i] == a);
    assert forall i :: 0 <= i < |rows| ==> all[i] == rows[i];
    assert all[|rows|] == next;
    assert after == before + (if next == a then {|rows|} else {});
  }

  /** The three counters are the numbers of rows of each kind and together make up all rows. */
  method Decide(candidates: seq<Candidate>) returns (rows: seq<Action>, drops: nat, keeps: nat, unknowns: nat)
    ensures |rows| == |candidates| == drops + keeps + unknowns
    ensures drops == CountOf(rows, Drop) && keeps == CountOf(rows, Keep) && unknowns == CountOf(rows, Unknown)
    ensures forall i :: 0 <= i < |rows| ==> Justified(candidates[i], rows[i])
    ensures forall i :: 0 <= i < |rows| ==>
              (rows[i] == Unknown <==> candidates[i].block == None || candidates[i].block == Some(""))
  {
    hide FactsIn, CountOf, Current;
    rows, drops, keeps, unknowns := [], 0, 0, 0;
    NoRows();
    for i := 0 to |candidates|
      invariant |rows| == i == drops + keeps + unknowns
      invariant drops == CountOf(rows, Drop) && keeps == CountOf(rows, Keep) && unknowns == CountOf(rows, Unknown)
      invariant forall k :: 0 <= k < i ==> Justified(candidates[k], rows[k])
    {
      var c := candidates[i];
      var action: Action;
      if c.block.None? || c.block.value == "" {
        action := Unknown;
        unknowns := unknowns + 1;
      } else {
        var facts, current := ParseVersions(c.block.value);
        var versionMatch := c.version in facts.versions || current == Some(c.version);
        if versionMatch && Consumable(facts) {
          action := Drop;
          drops := drops + 1;
        } else {
          action := Keep;
          keeps := keeps + 1;
        }
      }
      CountNext(rows, Drop, action);
      CountNext(rows, Keep, action);
      CountNext(rows, Unknown, action);
      rows := rows + [action];
    }
  }

  lemma NoRows()
    ensures CountOf([], Drop) == CountOf([], Keep) == CountOf([], Unknown) == 0
  {
  }

  // ---- Freezing ----

  /** An interface whose current version can be frozen. */
  predicate Freezable(f: Facts) {
    !f.unstable && f.versions != [] && f.frozen != Some(true)
  }

  /** What freezing does to the facts: the version joins the list and frozen is set. */
  function Frozen(f: Facts, version: nat): Facts {
    f.(versions := SortedSet(f.versions + [version]), frozen := Some(true))
  }

  /** The current version is above every listed one, and freezing it changes neither the set of
      built versions nor who may use them, so no decision. */
  lemma FreezingKeepsDecisions(f: Facts, version: nat)
    ensures Freezable(f) <==> Current(f).Some?
    ensures Freezable(f) ==> forall v :: v in f.versions ==> v < Current(f).value
    ensures Current(f) == Some(version) ==>
              && Built(Frozen(f, version)) == Built(f)
              && (Consumable(Frozen(f, version)) <==> Consumable(f))
              && Current(Frozen(f, version)) == None
  {
  }

  /** Freezing any other version than the current one changes what is built: then the current
      version is no longer. */
  lemma FreezingAnotherVersionDrops(f: Facts, version: nat)
    requires Freezable(f)
    ensures Built(Frozen(f, version)) == Built(f) <==> Current(f) == Some(version)
  {
    if Current(f) != Some(version) {
      assert Current(f).value in Built(f);
      assert Current(f).value !in Frozen(f, version).versions;
    } else {
      FreezingKeepsDecisions(f, version);
    }
  }
}
