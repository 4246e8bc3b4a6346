/** sorted() and list.sort(): the order of strings, sorting by any total order, and why the
    result depends only on what is sorted. */
module Sorting {

  // ---- The order of strings ----

  /** Code point by code point; a proper prefix comes first. */
  predicate Less(a: string, b: string) {
    b != "" && (a == "" || a[0] < b[0] || (a[0] == b[0] && Less(a[1..], b[1..])))
  }

  lemma {:induction false} LessIsTotal(a: string, b: string)
    ensures a == b || Less(a, b) || Less(b, a)
    ensures !(Less(a, b) && Less(b, a)) && (a == b ==> !Less(a, b))
  {
    if a != "" && b != "" {
      LessIsTotal(a[1..], b[1..]);
      assert a == [a[0]] + a[1..] && b == [b[0]] + b[1..];
    }
  }

  lemma {:induction false} LessIsTransitive(a: string, b: string, c: string)
    requires Less(a, b) && Less(b, c)
    ensures Less(a, c)
  {
    if a != "" && a[0] == b[0] == c[0] {
      LessIsTransitive(a[1..], b[1..], c[1..]);
    }
  }

  /** What the order is: at the first place where two strings differ the lesser character decides,
      and a proper prefix comes first. */
  lemma {:induction false} LessIff(a: string, b: string)
    ensures Less(a, b) <==>
            || (a <= b && a != b)
            || exists i :: 0 <= i < |a| && i < |b| && a[..i] == b[..i] && a[i] < b[i]
  {
    if a != "" && b != "" && a[0] == b[0] {
      LessIff(a[1..], b[1..]);
      DifferBehindHead(a, b);
      assert a == [a[0]] + a[1..] && b == [b[0]] + b[1..];
    } else if a != "" && b != "" {
      assert a[..0] == b[..0];
      assert forall i :: 0 < i < |a| && i < |b| ==> a[..i][0] == a[0] && b[..i][0] == b[0];
    }
  }

  lemma DifferBehindHead(a: string, b: string)
    requires a != "" && b != "" && a[0] == b[0]
    ensures (exists i :: 0 <= i < |a| && i < |b| && a[..i] == b[..i] && a[i] < b[i]) <==>
            var c, d := a[1..], b[1..];
            exists i :: 0 <= i < |c| && i < |d| && c[..i] == d[..i] && c[i] < d[i]
  {
    var c, d := a[1..], b[1..];
    forall i | 0 <= i < |c| && i < |d|
      ensures c[..i] == d[..i] <==> a[..i + 1] == b[..i + 1]
      ensures c[i] < d[i] <==> a[i + 1] < b[i + 1]
    {
      assert a[..i + 1] == [a[0]] + c[..i] && b[..i + 1] == [a[0]] + d[..i];
      assert c[..i] == a[..i + 1][1..] && d[..i] == b[..i + 1][1..];
    }
    if i :| 0 <= i < |a| && i < |b| && a[..i] == b[..i] && a[i] < b[i] {
      assert c[..i - 1] == d[..i - 1] && c[i - 1] < d[i - 1];
    }
  }

  /** Strings that start alike stand together: whatever lies between two of them starts like them. */
  lemma {:induction false} PrefixIsConvex(p: string, a: string, b: string, c: string)
    requires p <= a && p <= c && Less(a, b) && Less(b, c)
    ensures p <= b
  {
    if p != "" {
      assert p[0] == a[0] == c[0] == b[0];
      PrefixIsConvex(p[1..], a[1..], b[1..], c[1..]);
      assert b == [b[0]] + b[1..];
    }
  }

  // ---- Sorting ----

  type Order = (string, string) -> bool

  ghost predicate IsOrder(less: Order) {
    && (forall a :: !less(a, a))
    && (forall a, b :: a == b || less(a, b) || less(b, a))
    && (forall a, b, c :: less(a, b) && less(b, c) ==> less(a, c))
  }

  lemma LessIsOrder()
    ensures IsOrder(Less)
  {
    forall a, b
      ensures a == b || Less(a, b) || Less(b, a)
      ensures a == b ==> !Less(a, b)
    {
      LessIsTotal(a, b);
    }
    forall a, b, c | Less(a, b) && Less(b, c)
      ensures Less(a, c)
    {
      LessIsTransitive(a, b, c);
    }
  }

  ghost predicate Ascending(s: seq<string>, less: Order) {
    forall i, j :: 0 <= i < j < |s| ==> less(s[i], s[j])
  }

  ghost predicate NoRepeats(s: seq<string>) {
    forall i, j :: 0 <= i < j < |s| ==> s[i] != s[j]
  }

  function Insert(x: string, s: seq<string>, less: Order): seq<string> {
    if s == [] || less(x, s[0]) then [x] + s else [s[0]] + Insert(x, s[1..], less)
  }

  function Sort(s: seq<string>, less: Order): seq<string> {
    if s == [] then [] else Insert(s[0], Sort(s[1..], less), less)
  }

  lemma {:induction false} InsertMembers(x: string, s: seq<string>, less: Order)
    ensures multiset(Insert(x, s, less)) == multiset(s) + multiset{x}
  {
    if s != [] && !less(x, s[0]) {
      InsertMembers(x, s[1..], less);
      assert s == [s[0]] + s[1..];
    }
  }

  lemma {:induction false} SortMembers(s: seq<string>, less: Order)
    ensures multiset(Sort(s, less)) == multiset(s)
  {
    if s != [] {
      SortMembers(s[1..], less);
      InsertMembers(s[0], Sort(s[1..], less), less);
      assert s == [s[0]] + s[1..];
    }
  }

  lemma SameMembers(a: seq<string>, b: seq<string>)
    requires multiset(a) == multiset(b)
    ensures |a| == |b| && forall x :: x in a <==> x in b
  {
    assert |multiset(a)| == |a| && |multiset(b)| == |b|;
    forall x
      ensures x in a <==> x in b
    {
      assert x in a <==> x in multiset(a);
      assert x in b <==> x in multiset(b);
    }
  }

  lemma {:induction false} InsertAscends(x: string, s: seq<string>, less: Order)
    requires IsOrder(less) && Ascending(s, less) && x !in s
    ensures Ascending(Insert(x, s, less), less)
  {
    var r := Insert(x, s, less);
    if s != [] && !less(x, s[0]) {
      var rest := Insert(x, s[1..], less);
      assert forall i, j :: 0 <= i < j < |s[1..]| ==> s[1..][i] == s[i + 1] && s[1..][j] == s[j + 1];
      InsertAscends(x, s[1..], less);
      InsertMembers(x, s[1..], less);
      assert less(s[0], x);
      forall j | 0 <= j < |rest|
        ensures less(s[0], rest[j])
      {
        assert rest[j] in multiset(rest);
        assert rest[j] == x || rest[j] in s[1..];
      }
    }
  }

  lemma RestHasNoRepeats(s: seq<string>)
    requires s != [] && NoRepeats(s)
    ensures NoRepeats(s[1..]) && s[0] !in s[1..]
  {
  }

  lemma {:induction false} SortAscends(s: seq<string>, less: Order)
    requires IsOrder(less) && NoRepeats(s)
    ensures Ascending(Sort(s, less), less)
  {
    hide IsOrder, Ascending, NoRepeats;
    if s != [] {
      RestHasNoRepeats(s);
      SortAscends(s[1..], less);
      SortMembers(s[1..], less);
      SameMembers(Sort(s[1..], less), s[1..]);
      InsertAscends(s[0], Sort(s[1..], less), less);
    } else {
      NothingAscends(less);
    }
  }

  lemma NothingAscends(less: Order)
    ensures Ascending([], less)
  {
  }

  /** Two ascending lists of the same strings are the same list. */
  lemma {:induction false} AscendingIsUnique(a: seq<string>, b: seq<string>, less: Order)
    requires IsOrder(less) && Ascending(a, less) && Ascending(b, less)
    requires forall x :: x in a <==> x in b
    ensures a == b
    decreases |a|
  {
    assert a != [] ==> a[0] in b;
    assert b != [] ==> b[0] in a;
    if a != [] && b != [] {
      FirstIsLeast(a, a[0], less);
      FirstIsLeast(a, b[0], less);
      FirstIsLeast(b, b[0], less);
      FirstIsLeast(b, a[0], less);
      forall x
        ensures x in a[1..] <==> x in b[1..]
      {
        FirstIsLeast(a, x, less);
        FirstIsLeast(b, x, less);
      }
      AscendingIsUnique(a[1..], b[1..], less);
    }
  }

  lemma FirstIsLeast(s: seq<string>, x: string, less: Order)
    requires IsOrder(less) && Ascending(s, less) && s != []
    ensures x in s[1..] <==> x in s && x != s[0]
    ensures x in s ==> x == s[0] || (less(s[0], x) && !less(x, s[0]))
  {
    assert s == [s[0]] + s[1..];
  }

  /** Sorting forgets the order its input came in. */
  lemma SortDependsOnMembers(a: seq<string>, b: seq<string>, less: Order)
    requires IsOrder(less) && NoRepeats(a) && NoRepeats(b)
    requires forall x :: x in a <==> x in b
    ensures Sort(a, less) == Sort(b, less)
  {
    SortMembers(a, less);
    SortMembers(b, less);
    SameMembers(Sort(a, less), a);
    SameMembers(Sort(b, less), b);
    SortAscends(a, less);
    SortAscends(b, less);
    AscendingIsUnique(Sort(a, less), Sort(b, less), less);
  }

  lemma AscendingHasNoRepeats(s: seq<string>, less: Order)
    requires IsOrder(less) && Ascending(s, less)
    ensures NoRepeats(s)
  {
  }
}
