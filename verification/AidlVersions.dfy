/** Reading versions and flags out of an aidl_interface block (verify_aidl_versions.py,
    _match_bracket, _extract_field, parse_versions). */
module AidlVersions {
  import opened Text
  import opened Brackets
  import opened SoongFields

  // ---- Bracketed fields ----

  /** Just past the bracket that closes the one at start, or -1. */
  method MatchBracket(text: string, start: nat) returns (r: int)
    requires start < |text| && text[start] == '['
    ensures var e := MatchEnd(text, start, '[', ']');
            r == if Balance(text[start..e], '[', ']') == 0 then e else -1
  {
    var i, depth := FindMatchEnd(text, start, '[', ']');
    return if depth == 0 then i else -1;
  }

  lemma MatchEndIsPastOpen(text: string, start: nat)
    requires start < |text| && text[start] == '['
    ensures var e := MatchEnd(text, start, '[', ']');
            Balance(text[start..e], '[', ']') == 0 ==> start + 2 <= e
  {
    if MatchEnd(text, start, '[', ']') == start + 1 {
      assert text[start..start + 1] == ['['];
      OneCharBalance('[', '[', ']');
    }
  }

  /** The text between the brackets of the first `field: [`, nested brackets included. */
  function FieldText(block: string, field: string): Option<string> {
    var open := FindValue(block, field, Bracket, 0);
    if open == -1 then None
    else
      var e := MatchEnd(block, open, '[', ']');
      MatchEndIsPastOpen(block, open);
      if Balance(block[open..e], '[', ']') == 0 then Some(block[open + 1..e - 1]) else None
  }

  method ExtractField(block: string, field: string) returns (r: Option<string>)
    ensures r == FieldText(block, field)
  {
    var open := FindValue(block, field, Bracket, 0);
    if open == -1 {
      return None;
    }
    MatchEndIsPastOpen(block, open);
    var close := MatchBracket(block, open);
    if close < 0 {
      return None;
    }
    return Some(block[open + 1..close - 1]);
  }

  /** A field whose value is bracketed text is read whole: no inner bracket cuts it short. */
  lemma FieldTextIs(block: string, field: string, inner: string, after: string)
    requires ValueText(block, field, Bracket) == Some("[" + inner + "]" + after)
    requires Nested(inner, '[', ']')
    ensures FieldText(block, field) == Some(inner)
  {
    hide Nested, FindValue, StartsValue;
    var open := FindValue(block, field, Bracket, 0);
    var w := "[" + inner + "]";
    var e := open + |inner| + 2;
    assert block[open..] == w + after;
    assert block[open..e] == block[open..][..|w|] == w == ['['] + inner + [']'];
    BracketedMatches(block, open, inner, '[', ']');
    WrappedBalance(inner, '[', ']');
    assert block[open + 1..e - 1] == w[1..|w| - 1] == inner;
  }

  // ---- Version literals ----

  function DigitsEnd(s: string, i: nat): (e: nat)
    requires i <= |s|
    ensures i <= e <= |s| && AllDigits(s[i..e]) && (e < |s| ==> !IsDigit(s[e]))
    ensures forall k :: i <= k < e ==> IsDigit(s[k])
    decreases |s| - i
  {
    if i < |s| && IsDigit(s[i]) then
      var e := DigitsEnd(s, i + 1);
      assert s[i..e] == [s[i]] + s[i + 1..e];
      e
    else i
  }

  /** `"(\d+)"` at the start of s: the number and the length of the match. */
  function NumberAt(s: string): (r: Option<(nat, nat)>)
    ensures r.Some? ==> 0 < r.value.1 <= |s|
  {
    if s == "" || s[0] != '"' then None
    else
      var e := DigitsEnd(s, 1);
      if e > 1 && e < |s| && s[e] == '"' then Some((FromDec(s[1..e]), e + 1)) else None
  }

  /** All quoted numbers of s, left to right, as finditer sees them. */
  function NumbersIn(s: string): seq<nat> {
    if s == "" then []
    else
      match NumberAt(s)
      case Some((n, len)) => [n] + NumbersIn(s[len..])
      case None => NumbersIn(s[1..])
  }

  const VERSION := "version:"

  /** `version:\s*"(\d+)"` at the start of s. */
  function VersionAt(s: string): (r: Option<(nat, nat)>)
    ensures r.Some? ==> 0 < r.value.1 <= |s|
  {
    if !(VERSION <= s) then None
    else
      var i := SkipSpace(s, |VERSION|);
      match NumberAt(s[i..])
      case Some((n, len)) => Some((n, i + len))
      case None => None
  }

  /** The version literals of s that stand directly inside one level of braces. */
  function Walk(s: string, depth: int): seq<nat>
    decreases |s|
  {
    if s == "" then []
    else
      var d := depth + Weight(s[0], '{', '}');
      match if d == 1 then VersionAt(s) else None
      case Some((n, len)) => [n] + Walk(s[len..], d)
      case None => Walk(s[1..], d)
  }

  lemma WalkStep(raw: string, i: nat, depth: int)
    requires i < |raw|
    ensures var d := depth + Weight(raw[i], '{', '}');
            var m := if d == 1 then VersionAt(raw[i..]) else None;
            Walk(raw[i..], depth) ==
            if m.Some? then [m.value.0] + Walk(raw[i + m.value.1..], d) else Walk(raw[i + 1..], d)
  {
    hide VersionAt;
    assert raw[i..][1..] == raw[i + 1..];
    var m := VersionAt(raw[i..]);
    if m.Some? {
      assert raw[i..][m.value.1..] == raw[i + m.value.1..];
    }
  }

  lemma WalkNothing(s: string, depth: int)
    requires s == ""
    ensures Walk(s, depth) == []
  {
  }

  lemma WeightIs(c: char)
    ensures Weight(c, '{', '}') == if c == '{' then 1 else if c == '}' then -1 else 0
  {
  }

  method WalkVersions(raw: string) returns (versions: seq<nat>)
    ensures versions == Walk(raw, 0)
  {
    hide *;
    versions := [];
    assert raw[0..] == raw;
    var depthCurly, i := 0, 0;
    while i < |raw|
      invariant 0 <= i <= |raw|
      invariant Walk(raw, 0) == versions + Walk(raw[i..], depthCurly)
      decreases |raw| - i
    {
      WalkStep(raw, i, depthCurly);
      WeightIs(raw[i]);
      var ch := raw[i];
      if ch == '{' {
        depthCurly := depthCurly + 1;
      } else if ch == '}' {
        depthCurly := depthCurly - 1;
      }
      if depthCurly == 1 {
        var m := VersionAt(raw[i..]);
        if m.Some? {
          assert versions + ([m.value.0] + Walk(raw[i + m.value.1..], 1)) ==
                 (versions + [m.value.0]) + Walk(raw[i + m.value.1..], 1);
          versions := versions + [m.value.0];
          i := i + m.value.1;
          continue;
        }
      }
      i := i + 1;
    }
    WalkNothing(raw[i..], depthCurly);
  }

  // ---- sorted(set(...)) ----

  predicate Increasing(s: seq<nat>) {
    forall i, j :: 0 <= i < j < |s| ==> s[i] < s[j]
  }

  function InsertOnce(n: nat, s: seq<nat>): (r: seq<nat>)
    requires Increasing(s)
    ensures Increasing(r)
    ensures forall x :: x in r <==> x == n || x in s
  {
    if s == [] || n < s[0] then [n] + s
    else if n == s[0] then s
    else
      var r := InsertOnce(n, s[1..]);
      assert s == [s[0]] + s[1..];
      assert forall k :: 0 <= k < |r| ==> r[k] in r;
      [s[0]] + r
  }

  function SortedSet(s: seq<nat>): (r: seq<nat>)
    ensures Increasing(r)
    ensures forall x :: x in r <==> x in s
  {
    if s == [] then [] else InsertOnce(s[0], SortedSet(s[1..]))
  }

  /** The sorted duplicate-free list is determined by the elements alone. */
  lemma {:induction false} IncreasingIsUnique(a: seq<nat>, b: seq<nat>)
    requires Increasing(a) && Increasing(b) && forall x :: x in a <==> x in b
    ensures a == b
  {
    assert a != [] ==> a[0] in b;
    assert b != [] ==> b[0] in a;
    if a != [] {
      assert a[0] == b[0];
      forall x
        ensures x in a[1..] <==> x in b[1..]
      {
        assert x in a <==> x == a[0] || x in a[1..];
        assert x in b <==> x == b[0] || x in b[1..];
      }
      IncreasingIsUnique(a[1..], b[1..]);
    }
  }

  // ---- What parse_versions returns ----

  datatype Facts = Facts(versions: seq<nat>, frozen: Option<bool>, unstable: bool,
                         vendorAvailable: Option<bool>, isVintf: bool)

  function FlagIn(block: string, key: string): Option<bool> {
    match ValueText(block, key, TrueOrFalse)
    case Some(v) => Some("true" <= v)
    case None => None
  }

  function VersionsIn(block: string): seq<nat> {
    match FieldText(block, "versions_with_info")
    case Some(raw) => Walk(raw, 0)
    case None =>
      match FieldText(block, "versions")
      case Some(raw) => NumbersIn(raw)
      case None => []
  }

  function FactsIn(block: string): Facts {
    Facts(SortedSet(VersionsIn(block)), FlagIn(block, "frozen"),
          FlagIn(block, "unstable") == Some(true), FlagIn(block, "vendor_available"),
          ValueText(block, "stability", Vintf).Some?)
  }

  /** The version the source builds on top of the frozen ones. */
  function Current(f: Facts): Option<nat> {
    if !f.unstable && f.versions != [] && f.frozen != Some(true) then Some(Max(f.versions) + 1) else None
  }

  function Max(s: seq<nat>): (m: nat)
    requires s != []
    ensures m in s && forall x :: x in s ==> x <= m
  {
    if |s| == 1 then s[0]
    else
      var m := Max(s[1..]);
      assert s == [s[0]] + s[1..];
      if s[0] > m then s[0] else m
  }

  /** There is a current version exactly when the interface can still be frozen, and then it is one
      more than the greatest listed one. */
  lemma CurrentIsNext(f: Facts, v: nat)
    ensures Current(f) == Some(v) <==>
            !f.unstable && f.frozen != Some(true) && v > 0 && v - 1 in f.versions
            && forall w :: w in f.versions ==> w < v
    ensures Current(f).Some? <==> !f.unstable && f.frozen != Some(true) && f.versions != []
  {
    hide Max;
    if f.versions != [] {
      var m := Max(f.versions);
      assert m in f.versions && forall w :: w in f.versions ==> w <= m;
    }
  }

  lemma CurrentOf(f: Facts)
    ensures Current(f).Some? ==>
              var c := Current(f).value;
              c > 0 && c - 1 in f.versions && forall v :: v in f.versions ==> v < c
    ensures Current(f).Some? <==> !f.unstable && f.frozen != Some(true) && f.versions != []
  {
    if Current(f).Some? {
      CurrentIsNext(f, Current(f).value);
    }
  }

  method ParseVersions(block: string) returns (facts: Facts, current: Option<nat>)
    ensures facts == FactsIn(block) && current == Current(facts)
    ensures current.Some? <==> !facts.unstable && facts.frozen != Some(true) && facts.versions != []
    ensures current.Some? ==>
              var c := current.value;
              c > 0 && c - 1 in facts.versions && forall v :: v in facts.versions ==> v < c
  {
    hide FieldText, Walk, NumbersIn, FlagIn, ValueText, SortedSet, Max, Increasing;
    var versions: seq<nat> := [];
    var raw := ExtractField(block, "versions_with_info");
    if raw.Some? {
      versions := WalkVersions(raw.value);
    } else {
      raw := ExtractField(block, "versions");
      if raw.Some? {
        versions := NumbersIn(raw.value);
      }
    }
    var frozen := FlagIn(block, "frozen");
    var unstable := FlagIn(block, "unstable") == Some(true);
    var vendorAvailable := FlagIn(block, "vendor_available");
    var isVintf := ValueText(block, "stability", Vintf).Some?;
    versions := SortedSet(versions);
    facts := Facts(versions, frozen, unstable, vendorAvailable, isVintf);
    current := None;
    if !unstable && versions != [] {
      if frozen != Some(true) {
        current := Some(Max(versions) + 1);
      }
    }
    CurrentOf(facts);
  }
}
