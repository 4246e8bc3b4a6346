/** Grouping a list in an insertion-ordered dictionary: groups[key(x)].append(x). */
module Grouping {
  import opened Sorting

  type Key = string -> string

  /** The keys, in the order the dictionary first meets them. */
  function KeysOf(xs: seq<string>, key: Key): (keys: seq<string>)
    ensures NoRepeats(keys)
    ensures forall k :: k in keys <==> exists x :: x in xs && key(x) == k
  {
    if xs == [] then []
    else
      var n := |xs| - 1;
      var before := KeysOf(xs[..n], key);
      var k := key(xs[n]);
      assert xs == xs[..n] + [xs[n]];
      if k in before then before else before + [k]
  }

  /** The elements of one group, in input order. */
  function GroupOf(xs: seq<string>, key: Key, k: string): seq<string> {
    if xs == [] then []
    else
      var n := |xs| - 1;
      GroupOf(xs[..n], key, k) + (if key(xs[n]) == k then [xs[n]] else [])
  }

  /** The dictionary has these keys and, for every key, the group `of` gives it. */
  ghost predicate Holds(keys: seq<string>, groups: map<string, seq<string>>, of: string -> seq<string>) {
    && (forall k :: k in keys <==> k in groups)
    && forall k :: of(k) == if k in groups then groups[k] else []
  }

  /** groups[k].append(x) on a dictionary that starts missing keys with an empty list. */
  function Appended(groups: map<string, seq<string>>, k: string, x: string): map<string, seq<string>> {
    var ready := if k in groups then groups else groups[k := []];
    ready[k := ready[k] + [x]]
  }

  lemma HoldsNext(keys: seq<string>, groups: map<string, seq<string>>, of: string -> seq<string>,
                  k: string, x: string, of': string -> seq<string>)
    requires Holds(keys, groups, of)
    requires forall j :: of'(j) == of(j) + (if k == j then [x] else [])
    ensures k in keys <==> k in groups
    ensures Holds(if k in groups then keys else keys + [k], Appended(groups, k, x), of')
  {
    var keys' := if k in groups then keys else keys + [k];
    forall j
      ensures j in keys' <==> j in Appended(groups, k, x)
      ensures of'(j) == if j in Appended(groups, k, x) then Appended(groups, k, x)[j] else []
    {
      assert of(j) == if j in groups then groups[j] else [];
    }
  }

  ghost function GroupsOf(xs: seq<string>, key: Key): string -> seq<string> {
    k => GroupOf(xs, key, k)
  }

  lemma KeysNext(xs: seq<string>, key: Key, i: nat)
    requires i < |xs|
    ensures var k := key(xs[i]);
            KeysOf(xs[..i + 1], key) ==
            if k in KeysOf(xs[..i], key) then KeysOf(xs[..i], key) else KeysOf(xs[..i], key) + [k]
  {
    hide NoRepeats;
    assert xs[..i + 1][..i] == xs[..i];
  }

  lemma GroupsNext(xs: seq<string>, key: Key, i: nat)
    requires i < |xs|
    ensures forall j :: GroupsOf(xs[..i + 1], key)(j) ==
                        GroupsOf(xs[..i], key)(j) + (if key(xs[i]) == j then [xs[i]] else [])
  {
    assert xs[..i + 1][..i] == xs[..i];
  }

  lemma NothingGrouped(xs: seq<string>, key: Key)
    ensures KeysOf(xs[..0], key) == [] && Holds([], map[], GroupsOf(xs[..0], key))
  {
  }

  lemma OneMoreGrouped(xs: seq<string>, key: Key, i: nat, keys: seq<string>, groups: map<string, seq<string>>)
    requires i < |xs| && keys == KeysOf(xs[..i], key) && Holds(keys, groups, GroupsOf(xs[..i], key))
    ensures var k := key(xs[i]);
            var keys' := if k in groups then keys else keys + [k];
            && keys' == KeysOf(xs[..i + 1], key)
            && Holds(keys', Appended(groups, k, xs[i]), GroupsOf(xs[..i + 1], key))
  {
    hide *;
    KeysNext(xs, key, i);
    GroupsNext(xs, key, i);
    HoldsNext(keys, groups, GroupsOf(xs[..i], key), key(xs[i]), xs[i], GroupsOf(xs[..i + 1], key));
  }

  lemma AppendedIs(groups: map<string, seq<string>>, k: string, x: string)
    ensures var ready := if k in groups then groups else groups[k := []];
            Appended(groups, k, x) == ready[k := ready[k] + [x]]
  {
  }

  /** The dictionary: its keys in insertion order, and its values. */
  method GroupBy(xs: seq<string>, key: Key) returns (keys: seq<string>, groups: map<string, seq<string>>)
    ensures keys == KeysOf(xs, key) && forall k :: k in keys <==> k in groups
    ensures forall k :: k in groups ==> groups[k] == GroupOf(xs, key, k)
  {
    hide *;
    keys, groups := [], map[];
    NothingGrouped(xs, key);
    for i := 0 to |xs|
      invariant keys == KeysOf(xs[..i], key) && Holds(keys, groups, GroupsOf(xs[..i], key))
    {
      var k := key(xs[i]);
      OneMoreGrouped(xs, key, i, keys, groups);
      AppendedIs(groups, k, xs[i]);
      if k !in groups {
        keys := keys + [k];
        groups := groups[k := []];
      }
      groups := groups[k := groups[k] + [xs[i]]];
    }
    assert xs[..|xs|] == xs;
    HoldsMeans(xs, key, keys, groups);
  }

  lemma HoldsMeans(xs: seq<string>, key: Key, keys: seq<string>, groups: map<string, seq<string>>)
    requires Holds(keys, groups, GroupsOf(xs, key))
    ensures forall k :: k in keys <==> k in groups
    ensures forall k :: k in groups ==> groups[k] == GroupOf(xs, key, k)
  {
    hide GroupOf;
    assert forall k :: GroupsOf(xs, key)(k) == GroupOf(xs, key, k);
  }

  lemma {:induction false} GroupMembers(xs: seq<string>, key: Key, k: string)
    ensures forall x :: x in GroupOf(xs, key, k) <==> x in xs && key(x) == k
    ensures NoRepeats(xs) ==> NoRepeats(GroupOf(xs, key, k))
  {
    if xs != [] {
      var n := |xs| - 1;
      GroupMembers(xs[..n], key, k);
      assert xs == xs[..n] + [xs[n]];
    }
  }

  // ---- When grouping keeps the order ----

  /** The groups one after another. */
  function Regrouped(xs: seq<string>, key: Key, keys: seq<string>): seq<string> {
    if keys == [] then []
    else
      var n := |keys| - 1;
      Regrouped(xs, key, keys[..n]) + GroupOf(xs, key, keys[n])
  }

  /** Elements with the same key stand together. */
  ghost predicate Contiguous(xs: seq<string>, key: Key) {
    forall i, j, k :: 0 <= i < j < k < |xs| && key(xs[i]) == key(xs[k]) ==> key(xs[j]) == key(xs[i])
  }

  lemma PreviousHasKey(xs: seq<string>, key: Key)
    requires xs != [] && Contiguous(xs, key)
    ensures var n := |xs| - 1;
            Contiguous(xs[..n], key)
            && (key(xs[n]) in KeysOf(xs[..n], key) ==> n > 0 && key(xs[n - 1]) == key(xs[n]))
  {
    hide NoRepeats;
    var n := |xs| - 1;
    if key(xs[n]) in KeysOf(xs[..n], key) {
      var x :| x in xs[..n] && key(x) == key(xs[n]);
      var i :| 0 <= i < n && xs[i] == x;
    }
  }

  lemma {:induction false} LastKey(xs: seq<string>, key: Key)
    requires xs != [] && Contiguous(xs, key)
    ensures var keys := KeysOf(xs, key); keys != [] && keys[|keys| - 1] == key(xs[|xs| - 1])
  {
    hide NoRepeats, Contiguous;
    var n := |xs| - 1;
    PreviousHasKey(xs, key);
    if key(xs[n]) in KeysOf(xs[..n], key) {
      LastKey(xs[..n], key);
    }
  }

  lemma {:induction false} RegroupedOthers(xs: seq<string>, x: string, key: Key, keys: seq<string>)
    requires key(x) !in keys
    ensures Regrouped(xs + [x], key, keys) == Regrouped(xs, key, keys)
  {
    if keys != [] {
      var n := |keys| - 1;
      RegroupedOthers(xs, x, key, keys[..n]);
      assert (xs + [x])[..|xs|] == xs;
    }
  }

  lemma RegroupedLast(xs: seq<string>, x: string, key: Key, keys: seq<string>)
    requires NoRepeats(keys) && keys != [] && keys[|keys| - 1] == key(x)
    ensures Regrouped(xs + [x], key, keys) == Regrouped(xs, key, keys) + [x]
  {
    var n := |keys| - 1;
    RegroupedOthers(xs, x, key, keys[..n]);
    assert (xs + [x])[..|xs|] == xs;
  }

  lemma {:induction false} ContiguousStays(xs: seq<string>, key: Key)
    requires Contiguous(xs, key)
    ensures Regrouped(xs, key, KeysOf(xs, key)) == xs
  {
    if xs != [] {
      var n := |xs| - 1;
      var init, x := xs[..n], xs[n];
      var before, keys := KeysOf(init, key), KeysOf(xs, key);
      assert xs == init + [x];
      ContiguousStays(init, key);
      LastKey(xs, key);
      hide KeysOf, Regrouped, Contiguous;
      KeysNext(xs, key, n);
      assert xs[..n + 1] == xs;
      RegroupedLast(init, x, key, keys);
      if key(x) !in before {
        NewGroup(init, key, before, key(x));
      }
    }
  }

  lemma NewGroup(init: seq<string>, key: Key, keys: seq<string>, k: string)
    requires forall x :: x in init ==> key(x) in keys
    requires k !in keys
    ensures Regrouped(init, key, keys + [k]) == Regrouped(init, key, keys)
  {
    GroupMembers(init, key, k);
    assert GroupOf(init, key, k) != [] ==> GroupOf(init, key, k)[0] in GroupOf(init, key, k);
    assert (keys + [k])[..|keys|] == keys;
  }

  lemma {:induction false} RegroupedMembers(xs: seq<string>, key: Key, keys: seq<string>)
    ensures forall x :: x in Regrouped(xs, key, keys) ==> key(x) in keys
  {
    if keys != [] {
      var n := |keys| - 1;
      RegroupedMembers(xs, key, keys[..n]);
      GroupMembers(xs, key, keys[n]);
      assert keys == keys[..n] + [keys[n]];
    }
  }

  lemma {:induction false} RegroupedIsContiguous(xs: seq<string>, key: Key, keys: seq<string>)
    requires NoRepeats(keys)
    ensures Contiguous(Regrouped(xs, key, keys), key)
  {
    if keys != [] {
      var n := |keys| - 1;
      RegroupedIsContiguous(xs, key, keys[..n]);
      RegroupedMembers(xs, key, keys[..n]);
      GroupMembers(xs, key, keys[n]);
      TwoRuns(Regrouped(xs, key, keys[..n]), GroupOf(xs, key, keys[n]), key, keys[n]);
    }
  }

  lemma TwoRuns(a: seq<string>, b: seq<string>, key: Key, k: string)
    requires Contiguous(a, key)
    requires forall x :: x in a ==> key(x) != k
    requires forall x :: x in b ==> key(x) == k
    ensures Contiguous(a + b, key)
  {
    var s := a + b;
    forall i, j, l | 0 <= i < j < l < |s| && key(s[i]) == key(s[l])
      ensures key(s[j]) == key(s[i])
    {
      assert i < |a| ==> s[i] in a;
      assert i >= |a| ==> s[i] in b && s[j] in b;
      assert l >= |a| ==> s[l] in b;
      assert l < |a| ==> s[i] == a[i] && s[j] == a[j] && s[l] == a[l];
    }
  }

  /** Grouping and flattening gives the list back exactly when equal keys stand together. */
  lemma GroupingKeepsOrderIff(xs: seq<string>, key: Key)
    ensures Regrouped(xs, key, KeysOf(xs, key)) == xs <==> Contiguous(xs, key)
  {
    hide Contiguous, Regrouped;
    if Contiguous(xs, key) {
      ContiguousStays(xs, key);
    }
    RegroupedIsContiguous(xs, key, KeysOf(xs, key));
  }
}
