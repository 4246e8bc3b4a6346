/** Bracket matching as both scanners do it: count up on the opening character, down on the
    closing one, stop at zero or at the end of the text. */
module Brackets {

  function Weight(c: char, open: char, close: char): int {
    if c == open then 1 else if c == close then -1 else 0
  }

  /** Opening minus closing characters. */
  function Balance(s: string, open: char, close: char): int {
    if s == "" then 0 else Balance(s[..|s| - 1], open, close) + Weight(s[|s| - 1], open, close)
  }

  lemma BalanceNext(s: string, a: nat, b: nat, open: char, close: char)
    requires a <= b < |s|
    ensures Balance(s[a..b + 1], open, close) == Balance(s[a..b], open, close) + Weight(s[b], open, close)
  {
    assert s[a..b + 1][..b - a] == s[a..b];
  }

  lemma {:induction false} BalanceConcat(s: string, t: string, open: char, close: char)
    ensures Balance(s + t, open, close) == Balance(s, open, close) + Balance(t, open, close)
  {
    if t == "" {
      assert s + t == s;
    } else {
      BalanceConcat(s, t[..|t| - 1], open, close);
      assert (s + t)[..|s + t| - 1] == s + t[..|t| - 1];
    }
  }

  ghost predicate OpenUntil(s: string, start: nat, e: nat, open: char, close: char)
    requires start <= e <= |s|
  {
    forall k :: start < k < e ==> Balance(s[start..k], open, close) > 0
  }

  /** [start, e) is the shortest balanced slice from start, or all the rest of the text when
      that never balances. */
  ghost predicate IsMatchEnd(s: string, start: nat, e: nat, open: char, close: char) {
    && start < e <= |s|
    && OpenUntil(s, start, e, open, close)
    && (Balance(s[start..e], open, close) == 0 || e == |s|)
  }

  lemma MatchEndIsUnique(s: string, start: nat, e: nat, f: nat, open: char, close: char)
    requires IsMatchEnd(s, start, e, open, close) && IsMatchEnd(s, start, f, open, close)
    ensures e == f
  {
  }

  /** Where the count that started at `start` stops, from j on. */
  function ScanEnd(s: string, ghost start: nat, j: nat, depth: int, open: char, close: char): (e: nat)
    requires start < j <= |s| && depth == Balance(s[start..j], open, close) >= 0
    requires OpenUntil(s, start, j, open, close)
    ensures IsMatchEnd(s, start, e, open, close)
    decreases |s| - j
  {
    if j < |s| && depth > 0 then
      BalanceNext(s, start, j, open, close);
      ScanEnd(s, start, j + 1, depth + Weight(s[j], open, close), open, close)
    else j
  }

  function MatchEnd(s: string, start: nat, open: char, close: char): (e: nat)
    requires start < |s| && s[start] == open
    ensures IsMatchEnd(s, start, e, open, close)
  {
    assert s[start..start + 1] == [open] && [open][..0] == "";
    ScanEnd(s, start, start + 1, 1, open, close)
  }

  /** The counting loop: it stops where the slice first balances, or at the end. */
  method FindMatchEnd(s: string, start: nat, open: char, close: char) returns (j: nat, depth: int)
    requires start < |s| && s[start] == open
    ensures j == MatchEnd(s, start, open, close)
    ensures depth == Balance(s[start..j], open, close)
  {
    depth := 1;
    j := start + 1;
    assert s[start..start + 1] == [open] && [open][..0] == "";
    while j < |s| && depth > 0
      invariant start < j <= |s| && depth == Balance(s[start..j], open, close) >= 0
      invariant OpenUntil(s, start, j, open, close)
      decreases |s| - j
    {
      BalanceNext(s, start, j, open, close);
      if s[j] == open {
        depth := depth + 1;
      } else if s[j] == close {
        depth := depth - 1;
      }
      j := j + 1;
    }
    MatchEndIsUnique(s, start, j, MatchEnd(s, start, open, close), open, close);
  }

  // ---- Text in which the brackets pair up ----

  ghost predicate Nested(s: string, open: char, close: char) {
    && Balance(s, open, close) == 0
    && forall k :: 0 <= k <= |s| ==> Balance(s[..k], open, close) >= 0
  }

  lemma {:induction false} FlatIsNested(s: string, open: char, close: char)
    requires forall i :: 0 <= i < |s| ==> s[i] != open && s[i] != close
    ensures Nested(s, open, close)
  {
    if s != "" {
      var t := s[..|s| - 1];
      FlatIsNested(t, open, close);
      assert s[..|s|] == s;
      forall k | 0 <= k < |s|
        ensures Balance(s[..k], open, close) >= 0
      {
        assert s[..k] == t[..k];
      }
    }
  }

  lemma ConcatIsNested(s: string, t: string, open: char, close: char)
    requires Nested(s, open, close) && Nested(t, open, close)
    ensures Nested(s + t, open, close)
  {
    BalanceConcat(s, t, open, close);
    forall k | 0 <= k <= |s + t|
      ensures Balance((s + t)[..k], open, close) >= 0
    {
      if k <= |s| {
        assert (s + t)[..k] == s[..k];
      } else {
        assert (s + t)[..k] == s + t[..k - |s|];
        BalanceConcat(s, t[..k - |s|], open, close);
      }
    }
  }

  lemma OneCharBalance(c: char, open: char, close: char)
    ensures Balance([c], open, close) == Weight(c, open, close)
  {
    assert [c][..0] == "";
  }

  /** Inside a bracket pair the count stays positive until the pair closes. */
  lemma WrappedPrefix(inner: string, k: nat, open: char, close: char)
    requires open != close && Nested(inner, open, close) && 0 < k < |inner| + 2
    ensures Balance(([open] + inner + [close])[..k], open, close) > 0
  {
    assert ([open] + inner + [close])[..k] == [open] + inner[..k - 1];
    BalanceConcat([open], inner[..k - 1], open, close);
    OneCharBalance(open, open, close);
  }

  lemma WrappedBalance(inner: string, open: char, close: char)
    requires open != close && Nested(inner, open, close)
    ensures Balance([open] + inner + [close], open, close) == 0
  {
    BalanceConcat([open] + inner, [close], open, close);
    BalanceConcat([open], inner, open, close);
    OneCharBalance(open, open, close);
    OneCharBalance(close, open, close);
  }

  lemma WrapIsNested(inner: string, open: char, close: char)
    requires open != close && Nested(inner, open, close)
    ensures Nested([open] + inner + [close], open, close)
  {
    var w := [open] + inner + [close];
    WrappedBalance(inner, open, close);
    forall k | 0 <= k <= |w|
      ensures Balance(w[..k], open, close) >= 0
    {
      if k == 0 {
        assert w[..0] == "";
      } else if k == |w| {
        assert w[..k] == w;
      } else {
        WrappedPrefix(inner, k, open, close);
      }
    }
  }

  /** A bracketed text is matched exactly, wherever it stands and whatever follows it. */
  lemma BracketedMatches(s: string, start: nat, inner: string, open: char, close: char)
    requires open != close && Nested(inner, open, close)
    requires start + |inner| + 2 <= |s| && s[start..start + |inner| + 2] == [open] + inner + [close]
    ensures s[start] == open && MatchEnd(s, start, open, close) == start + |inner| + 2
  {
    var w := [open] + inner + [close];
    var e := start + |inner| + 2;
    assert s[start] == s[start..e][0];
    forall k | start < k < e
      ensures Balance(s[start..k], open, close) > 0
    {
      assert s[start..k] == w[..k - start];
      WrappedPrefix(inner, k - start, open, close);
    }
    WrappedBalance(inner, open, close);
    MatchEndIsUnique(s, start, e, MatchEnd(s, start, open, close), open, close);
  }
}
