/** The hex payload parser of the calibration tool (tools/goodix_calib/goodix_calib.cpp,
    ParseHex): packed "aabbcc" or delimited "aa,bb cc". */
module HexPayload {
  import opened Text

  const LONG_MAX := 0x7FFF_FFFF_FFFF_FFFF

  predicate IsHexDigit(c: char) {
    '0' <= c <= '9' || 'a' <= c <= 'f' || 'A' <= c <= 'F'
  }

  function DigitValue(c: char): (v: nat)
    requires IsHexDigit(c)
    ensures v < 16
  {
    if c <= '9' then c as int - '0' as int
    else if c <= 'F' then c as int - 'A' as int + 10
    else c as int - 'a' as int + 10
  }

  predicate AllHex(s: string) {
    forall i :: 0 <= i < |s| ==> IsHexDigit(s[i])
  }

  function HexValue(s: string): nat
    requires AllHex(s)
  {
    if s == "" then 0 else 16 * HexValue(s[..|s| - 1]) + DigitValue(s[|s| - 1])
  }

  // ---- strtol(s, nullptr, 16), section 7.22.1.4 of ISO C11, with a 64-bit long ----

  predicate IsSpace(c: char) {
    c == ' ' || '\t' <= c <= '\r'
  }

  function SkipSpaces(s: string): string {
    if s != "" && IsSpace(s[0]) then SkipSpaces(s[1..]) else s
  }

  /** The longest prefix of hex digits. */
  function HexPrefix(s: string): (p: string)
    ensures AllHex(p) && p <= s && (|p| < |s| ==> !IsHexDigit(s[|p|]))
  {
    if s != "" && IsHexDigit(s[0]) then [s[0]] + HexPrefix(s[1..]) else ""
  }

  /** A prefix 0x or 0X counts only when a hex digit follows; otherwise the number is the 0. */
  predicate HasHexMarker(s: string) {
    |s| >= 3 && s[0] == '0' && (s[1] == 'x' || s[1] == 'X') && IsHexDigit(s[2])
  }

  function Strtol16(s: string): int {
    var t := SkipSpaces(s);
    var negative := t != "" && t[0] == '-';
    var u := if t != "" && (t[0] == '-' || t[0] == '+') then t[1..] else t;
    var v: int := HexValue(HexPrefix(if HasHexMarker(u) then u[2..] else u));
    if negative then (if v > LONG_MAX then -LONG_MAX - 1 else -v)
    else if v > LONG_MAX then LONG_MAX else v
  }

  /** static_cast<uint8_t>: the value modulo 256. */
  function ToByte(s: string): byte {
    LowByte(Strtol16(s))
  }

  function LowByte(v: int): byte {
    v % 256
  }

  // ---- The two grammars ----

  predicate IsDelimiter(c: char) {
    c == ',' || c == ' ' || c == '\t' || c == ':'
  }

  predicate HasDelimiter(s: string) {
    exists i :: 0 <= i < |s| && IsDelimiter(s[i])
  }

  predicate IsPacked(s: string) {
    !HasDelimiter(s) && |s| % 2 == 0
  }

  function Pairs(s: string): (pairs: seq<string>)
    ensures |pairs| == |s| / 2
    ensures forall i :: 0 <= i < |pairs| ==> pairs[i] == s[2 * i..2 * i + 2]
  {
    seq(|s| / 2, i requires 0 <= i < |s| / 2 => s[2 * i..2 * i + 2])
  }

  /** Whether the token read so far goes on with c. */
  predicate Continues(cur: string, c: char) {
    IsHexDigit(c) || (c == 'x' && cur == "0")
  }

  /** The tokens of s when cur has been read already. */
  function Tokens(s: string, cur: string): seq<string>
    decreases |s|
  {
    if s == "" then (if cur == "" then [] else [cur])
    else if Continues(cur, s[0]) then Tokens(s[1..], cur + [s[0]])
    else (if cur == "" then [] else [cur]) + Tokens(s[1..], "")
  }

  function BytesOf(tokens: seq<string>): (out: seq<byte>)
    ensures |out| == |tokens| && forall i :: 0 <= i < |tokens| ==> out[i] == ToByte(tokens[i])
  {
    seq(|tokens|, i requires 0 <= i < |tokens| => ToByte(tokens[i]))
  }

  function Parsed(s: string): seq<byte> {
    BytesOf(if IsPacked(s) then Pairs(s) else Tokens(s, ""))
  }

  method FindDelimiter(s: string) returns (found: bool)
    ensures found <==> HasDelimiter(s)
  {
    for i := 0 to |s|
      invariant forall j :: 0 <= j < i ==> !IsDelimiter(s[j])
    {
      if IsDelimiter(s[i]) {
        return true;
      }
    }
    return false;
  }

  lemma ReadChar(s: string, i: nat, cur: string)
    requires i < |s|
    ensures Tokens(s[i..], cur) ==
            if Continues(cur, s[i]) then Tokens(s[i + 1..], cur + [s[i]])
            else (if cur == "" then [] else [cur]) + Tokens(s[i + 1..], "")
  {
    assert s[i..][1..] == s[i + 1..];
  }

  method ParsePacked(s: string) returns (out: seq<byte>)
    requires |s| % 2 == 0
    ensures out == BytesOf(Pairs(s))
  {
    out := [];
    var i := 0;
    while i + 1 < |s|
      invariant 0 <= i <= |s| && i == 2 * |out|
      invariant forall k :: 0 <= k < |out| ==> out[k] == ToByte(Pairs(s)[k])
    {
      assert Pairs(s)[|out|] == s[i..i + 2];
      out := out + [ToByte(s[i..i + 2])];
      i := i + 2;
    }
  }

  /** Pushes the token read so far, if any. */
  method Flush(out: seq<byte>, cur: string, ghost done: seq<string>) returns (out': seq<byte>, ghost done': seq<string>)
    requires out == BytesOf(done)
    ensures done' == done + (if cur == "" then [] else [cur]) && out' == BytesOf(done')
  {
    out', done' := out, done;
    if cur != "" {
      out' := out + [ToByte(cur)];
      done' := done + [cur];
    }
  }

  method ParseTokens(s: string) returns (out: seq<byte>)
    ensures out == BytesOf(Tokens(s, ""))
  {
    out := [];
    var cur := "";
    ghost var done: seq<string> := [];
    for i := 0 to |s|
      invariant Tokens(s, "") == done + Tokens(s[i..], cur)
      invariant out == BytesOf(done)
    {
      ReadChar(s, i, cur);
      if Continues(cur, s[i]) {
        cur := cur + [s[i]];
      } else {
        out, done := Flush(out, cur, done);
        cur := "";
      }
    }
    out, done := Flush(out, cur, done);
  }

  method ParseHex(s: string) returns (out: seq<byte>)
    ensures out == Parsed(s)
  {
    var hasDelim := FindDelimiter(s);
    if !hasDelim && |s| % 2 == 0 {
      out := ParsePacked(s);
    } else {
      out := ParseTokens(s);
    }
  }

  // ---- What a token means ----

  lemma HexPrefixOfHex(s: string)
    requires AllHex(s)
    ensures HexPrefix(s) == s
  {
  }

  lemma StrtolOfHex(t: string)
    requires t != "" && AllHex(t)
    ensures Strtol16(t) == if HexValue(t) > LONG_MAX then LONG_MAX else HexValue(t)
  {
    assert IsHexDigit(t[0]) && !IsSpace(t[0]);
    assert SkipSpaces(t) == t && !HasHexMarker(t);
    HexPrefixOfHex(t);
  }

  lemma StrtolOfMarkedHex(t: string)
    requires t != "" && AllHex(t)
    ensures Strtol16("0x" + t) == Strtol16(t)
  {
    var m := "0x" + t;
    assert SkipSpaces(m) == m && HasHexMarker(m) && m[2..] == t;
    HexPrefixOfHex(t);
    StrtolOfHex(t);
  }

  /** A run of hex digits stands for its value modulo 256, until the 64-bit range is left:
      from then on every token stands for 255. */
  lemma TokenByte(t: string)
    requires t != "" && AllHex(t)
    ensures ToByte(t) == if HexValue(t) > LONG_MAX then 255 else HexValue(t) % 256
    ensures ToByte("0x" + t) == ToByte(t)
  {
    StrtolOfHex(t);
    StrtolOfMarkedHex(t);
    LowByteOfClamped(HexValue(t));
  }

  lemma LowByteOfClamped(v: nat)
    ensures LowByte(if v > LONG_MAX then LONG_MAX else v) == if v > LONG_MAX then 255 else v % 256
  {
  }

  /** t spells b: one or two hex digits of either case, with or without 0x. */
  ghost predicate Spells(t: string, b: byte) {
    IsNumeral(t, b) || (|t| > 2 && t[..2] == "0x" && IsNumeral(t[2..], b))
  }

  predicate IsNumeral(d: string, b: byte) {
    1 <= |d| <= 2 && AllHex(d) && HexValue(d) == b
  }

  lemma SpelledByte(t: string, b: byte)
    requires Spells(t, b)
    ensures ToByte(t) == b && Accepted("", t) && t != ""
  {
    if IsNumeral(t, b) {
      NumeralByte(t, b);
      AcceptsHex("", t);
    } else {
      var d := t[2..];
      assert t == "0x" + d;
      NumeralByte(d, b);
      AcceptsHex("0x", d);
      AcceptsMarked(d);
    }
  }

  lemma AcceptsMarked(d: string)
    requires Accepted("0x", d)
    ensures Accepted("", "0x" + d)
  {
    var t := "0x" + d;
    assert t[0] == '0' && t[1..] == "x" + d && ("x" + d)[1..] == d;
    assert "" + ['0'] == "0" && "0" + ['x'] == "0x";
    assert Accepted("0", "x" + d);
  }

  lemma NumeralByte(d: string, b: byte)
    requires IsNumeral(d, b)
    ensures ToByte(d) == b && ToByte("0x" + d) == b
  {
    NumeralIsSmall(d, b);
    hide ToByte, HexValue, AllHex;
    TokenByte(d);
  }

  lemma NumeralIsSmall(d: string, b: byte)
    requires IsNumeral(d, b)
    ensures d != "" && AllHex(d) && HexValue(d) == b && b <= LONG_MAX && b % 256 == b
  {
  }

  /** Reading t after cur never ends the token. */
  ghost predicate Accepted(cur: string, t: string)
    decreases |t|
  {
    t == "" || (Continues(cur, t[0]) && Accepted(cur + [t[0]], t[1..]))
  }

  lemma AcceptsHex(cur: string, t: string)
    requires AllHex(t)
    ensures Accepted(cur, t)
    decreases |t|
  {
    if t != "" {
      AcceptsHex(cur + [t[0]], t[1..]);
    }
  }

  lemma ReadToken(cur: string, t: string, rest: string)
    requires Accepted(cur, t)
    ensures Tokens(t + rest, cur) == Tokens(rest, cur + t)
    decreases |t|
  {
    if t == "" {
      assert t + rest == rest && cur + t == cur;
    } else {
      assert (t + rest)[1..] == t[1..] + rest;
      ReadToken(cur + [t[0]], t[1..], rest);
      assert cur + [t[0]] + t[1..] == cur + t;
    }
  }

  // ---- Round trips ----

  /** Two hex digits for every byte, nothing else. */
  ghost predicate PacksTo(s: string, bs: seq<byte>) {
    && |s| == 2 * |bs| && AllHex(s)
    && forall i :: 0 <= i < |bs| ==> IsNumeral(Pairs(s)[i], bs[i])
  }

  lemma HexHasNoDelimiter(s: string)
    requires AllHex(s)
    ensures !HasDelimiter(s)
  {
  }

  lemma PackedRoundTrip(s: string, bs: seq<byte>)
    requires PacksTo(s, bs)
    ensures Parsed(s) == bs
  {
    HexHasNoDelimiter(s);
    hide IsNumeral, ToByte, HasDelimiter, AllHex;
    var pairs := Pairs(s);
    forall i | 0 <= i < |bs|
      ensures ToByte(pairs[i]) == bs[i]
    {
      NumeralByte(pairs[i], bs[i]);
    }
  }

  /** A gap separates tokens: neither a hex digit nor the x of a 0x. */
  predicate IsGap(g: string) {
    forall i :: 0 <= i < |g| ==> !IsHexDigit(g[i]) && g[i] != 'x'
  }

  /** Tokens and gaps alternating: each token is followed by its gap. */
  function Joined(tokens: seq<string>, gaps: seq<string>): string
    requires |tokens| == |gaps|
  {
    if tokens == [] then "" else tokens[0] + gaps[0] + Joined(tokens[1..], gaps[1..])
  }

  lemma SkipGap(g: string, rest: string)
    requires IsGap(g)
    ensures Tokens(g + rest, "") == Tokens(rest, "")
  {
    if g == "" {
      assert g + rest == rest;
    } else {
      assert (g + rest)[1..] == g[1..] + rest;
      SkipGap(g[1..], rest);
    }
  }

  lemma {:induction false} JoinedTokens(tokens: seq<string>, gaps: seq<string>, bs: seq<byte>)
    requires |tokens| == |gaps| == |bs|
    requires forall i :: 0 <= i < |bs| ==> Spells(tokens[i], bs[i]) && IsGap(gaps[i])
    requires forall i :: 0 <= i < |bs| - 1 ==> gaps[i] != ""
    ensures Tokens(Joined(tokens, gaps), "") == tokens && BytesOf(tokens) == bs
  {
    forall i | 0 <= i < |bs|
      ensures ToByte(tokens[i]) == bs[i]
    {
      SpelledByte(tokens[i], bs[i]);
    }
    if tokens != [] {
      JoinedTokens(tokens[1..], gaps[1..], bs[1..]);
      SpelledByte(tokens[0], bs[0]);
      ReadFirst(tokens[0], gaps[0], Joined(tokens[1..], gaps[1..]));
      assert tokens == [tokens[0]] + tokens[1..];
    }
  }

  lemma ReadFirst(t: string, gap: string, later: string)
    requires Accepted("", t) && t != "" && IsGap(gap) && (later != "" ==> gap != "")
    ensures Tokens(t + gap + later, "") == [t] + Tokens(later, "")
  {
    var rest := gap + later;
    assert t + gap + later == t + rest;
    ReadToken("", t, rest);
    assert "" + t == t;
    SkipGap(gap, later);
    if rest != "" {
      assert rest[0] == gap[0];
    }
  }

  /** Any spelled bytes between gaps come back, whenever the text is not taken for packed. */
  lemma DelimitedRoundTrip(lead: string, tokens: seq<string>, gaps: seq<string>, bs: seq<byte>)
    requires |tokens| == |gaps| == |bs| && IsGap(lead)
    requires forall i :: 0 <= i < |bs| ==> Spells(tokens[i], bs[i]) && IsGap(gaps[i])
    requires forall i :: 0 <= i < |bs| - 1 ==> gaps[i] != ""
    requires !IsPacked(lead + Joined(tokens, gaps))
    ensures Parsed(lead + Joined(tokens, gaps)) == bs
  {
    SkipGap(lead, Joined(tokens, gaps));
    JoinedTokens(tokens, gaps, bs);
  }

  lemma JoinedKeepsDelimiter(tokens: seq<string>, gaps: seq<string>)
    requires |tokens| == |gaps| && |gaps| > 0 && HasDelimiter(gaps[0])
    ensures HasDelimiter(Joined(tokens, gaps))
  {
    var i :| 0 <= i < |gaps[0]| && IsDelimiter(gaps[0][i]);
    assert Joined(tokens, gaps)[|tokens[0]| + i] == gaps[0][i];
  }

  predicate IsDelimiterRun(g: string) {
    forall j :: 0 <= j < |g| ==> IsDelimiter(g[j])
  }

  /** Two or more bytes joined by non-empty runs of delimiters always come back. */
  lemma TwoOrMoreBytesRoundTrip(tokens: seq<string>, gaps: seq<string>, bs: seq<byte>)
    requires |tokens| == |gaps| == |bs| >= 2
    requires forall i :: 0 <= i < |bs| ==> Spells(tokens[i], bs[i])
    requires forall i :: 0 <= i < |bs| ==> IsDelimiterRun(gaps[i])
    requires forall i :: 0 <= i < |bs| - 1 ==> gaps[i] != ""
    ensures Parsed(Joined(tokens, gaps)) == bs
  {
    forall i | 0 <= i < |bs|
      ensures IsGap(gaps[i])
    {
    }
    assert IsDelimiter(gaps[0][0]);
    JoinedKeepsDelimiter(tokens, gaps);
    assert "" + Joined(tokens, gaps) == Joined(tokens, gaps);
    DelimitedRoundTrip("", tokens, gaps, bs);
  }

  /** A single byte on its own comes back unless it is written as 0x and two digits: that text
      is taken for two packed bytes, and the 0x becomes a leading 0. */
  lemma SingleByteRoundTripsUnlessMarked(t: string, b: byte)
    requires Spells(t, b)
    ensures Parsed(t) == [b] <==> |t| != 4
    ensures |t| == 4 ==> Parsed(t) == [0, b]
  {
    SpelledLength(t, b);
    hide *;
    if |t| % 2 == 1 {
      OddToken(t, b);
    } else if |t| == 2 {
      LonePair(t, b);
    } else {
      MarkedPair(t[2..], b);
      assert t == "0x" + t[2..];
    }
  }

  lemma SpelledLength(t: string, b: byte)
    requires Spells(t, b)
    ensures 1 <= |t| <= 4
    ensures |t| == 2 ==> IsNumeral(t, b)
    ensures |t| == 4 ==> t[..2] == "0x" && IsNumeral(t[2..], b)
  {
    hide HexValue, AllHex;
  }

  lemma LonePair(t: string, b: byte)
    requires |t| == 2 && IsNumeral(t, b)
    ensures Parsed(t) == [b]
  {
    NumeralByte(t, b);
    HexHasNoDelimiter(t);
    hide ToByte, HexValue, HasDelimiter;
    assert Pairs(t)[0] == t[..2] == t;
  }

  lemma MarkedIsPacked(d: string, b: byte)
    requires |d| == 2 && IsNumeral(d, b)
    ensures IsPacked("0x" + d)
  {
    hide HexValue;
    assert AllHex(d);
  }

  lemma TwoPairs(a: string, d: string)
    requires |a| == |d| == 2 && IsPacked(a + d)
    ensures Parsed(a + d) == [ToByte(a), ToByte(d)]
  {
    hide ToByte, IsPacked;
    assert Pairs(a + d)[0] == a && Pairs(a + d)[1] == d;
  }

  lemma MarkedPair(d: string, b: byte)
    requires |d| == 2 && IsNumeral(d, b)
    ensures Parsed("0x" + d) == [0, b]
  {
    hide *;
    MarkerAlone();
    NumeralByte(d, b);
    MarkedIsPacked(d, b);
    TwoPairs("0x", d);
  }

  lemma OddToken(t: string, b: byte)
    requires Spells(t, b) && |t| % 2 == 1
    ensures Parsed(t) == [b]
  {
    assert Joined([t], [""]) == t + "" + Joined([t][1..], [""][1..]);
    assert "" + Joined([t], [""]) == t;
    DelimitedRoundTrip("", [t], [""], [b]);
  }

  lemma MarkerAlone()
    ensures ToByte("0x") == 0
  {
    assert "0x"[1..] == "x" && HexPrefix("x") == "";
    assert HexPrefix("0x") == "0";
    assert "0"[..0] == "";
  }

  // ---- Size ----

  lemma {:induction false} TokensAreFew(s: string, cur: string)
    ensures |Tokens(s, cur)| <= (|s| + (if cur == "" then 1 else 2)) / 2
    decreases |s|
  {
    if s != "" {
      if Continues(cur, s[0]) {
        TokensAreFew(s[1..], cur + [s[0]]);
      } else {
        TokensAreFew(s[1..], "");
      }
    }
  }

  /** On any input at all, at most every other character starts a byte. */
  lemma OutputIsSmall(s: string)
    ensures |Parsed(s)| <= (|s| + 1) / 2
  {
    TokensAreFew(s, "");
  }

  // ---- Against an independent printer ----

  /** The two digits of a byte, each in lower or upper case. */
  ghost predicate Prints(d: string, b: byte) {
    && |d| == 2
    && (d[0] == "0123456789abcdef"[b / 16] || d[0] == "0123456789ABCDEF"[b / 16])
    && (d[1] == "0123456789abcdef"[b % 16] || d[1] == "0123456789ABCDEF"[b % 16])
  }

  lemma EveryByteIsPrinted(b: byte)
    ensures Prints(["0123456789abcdef"[b / 16], "0123456789abcdef"[b % 16]], b)
    ensures Prints(["0123456789ABCDEF"[b / 16], "0123456789ABCDEF"[b % 16]], b)
  {
  }

  lemma PrintedDigit(v: nat, c: char)
    requires v < 16 && (c == "0123456789abcdef"[v] || c == "0123456789ABCDEF"[v])
    ensures IsHexDigit(c) && DigitValue(c) == v
  {
    if v < 8 {
      LowDigit(v);
    } else {
      HighDigit(v);
    }
  }

  lemma LowDigit(v: nat)
    requires v < 8
    ensures "0123456789abcdef"[v] == "0123456789ABCDEF"[v] == (v + '0' as int) as char
  {
  }

  lemma HighDigit(v: nat)
    requires 8 <= v < 16
    ensures "0123456789abcdef"[v] == (if v < 10 then (v + '0' as int) as char else (v - 10 + 'a' as int) as char)
    ensures "0123456789ABCDEF"[v] == (if v < 10 then (v + '0' as int) as char else (v - 10 + 'A' as int) as char)
  {
  }

  lemma PrintedIsNumeral(d: string, b: byte)
    requires Prints(d, b)
    ensures IsNumeral(d, b)
  {
    PrintedDigit(b / 16, d[0]);
    PrintedDigit(b % 16, d[1]);
    hide IsHexDigit, DigitValue;
    TwoDigits(d);
  }

  lemma AppendDigit(s: string, c: char)
    requires AllHex(s) && IsHexDigit(c)
    ensures AllHex(s + [c]) && HexValue(s + [c]) == 16 * HexValue(s) + DigitValue(c)
  {
    hide DigitValue, IsHexDigit;
    assert (s + [c])[..|s|] == s;
  }

  lemma TwoDigits(d: string)
    requires |d| == 2 && AllHex(d)
    ensures HexValue(d) == 16 * DigitValue(d[0]) + DigitValue(d[1])
  {
    hide IsHexDigit, DigitValue;
    AppendDigit("", d[0]);
    AppendDigit([d[0]], d[1]);
    assert "" + [d[0]] == [d[0]] && [d[0]] + [d[1]] == d;
  }

  /** The packed form, printed digit by digit, comes back. */
  lemma PackedComesBack(s: string, bs: seq<byte>)
    requires |s| == 2 * |bs| && forall i :: 0 <= i < |bs| ==> Prints(s[2 * i..2 * i + 2], bs[i])
    ensures Parsed(s) == bs
  {
    hide IsNumeral, Prints;
    forall i | 0 <= i < |bs|
      ensures IsNumeral(s[2 * i..2 * i + 2], bs[i])
    {
      PrintedIsNumeral(s[2 * i..2 * i + 2], bs[i]);
    }
    forall k | 0 <= k < |s|
      ensures IsHexDigit(s[k])
    {
      NumeralDigit(s[2 * (k / 2)..2 * (k / 2) + 2], bs[k / 2], k % 2);
      assert s[2 * (k / 2)..2 * (k / 2) + 2][k % 2] == s[k];
    }
    PackedRoundTrip(s, bs);
  }

  lemma NumeralDigit(d: string, b: byte, k: nat)
    requires IsNumeral(d, b) && k < |d|
    ensures IsHexDigit(d[k])
  {
  }

  lemma JoinIsJoined(tokens: seq<string>, sep: string, gaps: seq<string>)
    requires |tokens| == |gaps| > 0
    requires forall i :: 0 <= i < |gaps| ==> gaps[i] == if i == |gaps| - 1 then "" else sep
    ensures Join(tokens, sep) == Joined(tokens, gaps)
  {
    if |tokens| == 1 {
      assert Joined(tokens[1..], gaps[1..]) == "";
      assert tokens[0] + gaps[0] + "" == tokens[0];
    } else {
      JoinIsJoined(tokens[1..], sep, gaps[1..]);
    }
  }

  /** Two or more bytes, each with or without 0x, come back from behind any of the four delimiters. */
  lemma DelimitedComesBack(tokens: seq<string>, digits: seq<string>, bs: seq<byte>, sep: string)
    requires sep == "," || sep == " " || sep == "\t" || sep == ":"
    requires |tokens| == |digits| == |bs| >= 2
    requires forall i :: 0 <= i < |bs| ==>
               Prints(digits[i], bs[i]) && (tokens[i] == digits[i] || tokens[i] == "0x" + digits[i])
    ensures Parsed(Join(tokens, sep)) == bs
  {
    var gaps := seq(|tokens|, i => if i == |tokens| - 1 then "" else sep);
    assert IsDelimiterRun(sep) && IsDelimiterRun("");
    hide Prints, IsNumeral, IsDelimiterRun, Parsed, Joined, Join;
    forall i | 0 <= i < |bs|
      ensures Spells(tokens[i], bs[i])
    {
      PrintedIsNumeral(digits[i], bs[i]);
      assert ("0x" + digits[i])[..2] == "0x" && ("0x" + digits[i])[2..] == digits[i];
      NumeralIsSmall(digits[i], bs[i]);
    }
    JoinIsJoined(tokens, sep, gaps);
    TwoOrMoreBytesRoundTrip(tokens, gaps, bs);
  }

  /** What else a packed pair can hold: signs and blanks are read as strtol does, anything that is
      no digit as 0. */
  lemma OddPairs()
    ensures ToByte("-5") == 251 && ToByte("+5") == 5 && ToByte("\n5") == 5 && ToByte("5z") == 5 && ToByte("zz") == 0
  {
    FivePrefix();
    assert "-5"[1..] == "5" && "+5"[1..] == "5" && "\n5"[1..] == "5" && "5z"[1..] == "z";
    assert SkipSpaces("-5") == "-5" && SkipSpaces("+5") == "+5" && SkipSpaces("5z") == "5z" && SkipSpaces("zz") == "zz";
    assert SkipSpaces("\n5") == SkipSpaces("5") == "5";
    assert HexPrefix("zz") == "";
  }

  lemma FivePrefix()
    ensures HexPrefix("5") == "5" && HexPrefix("5z") == "5" && AllHex("5") && HexValue("5") == 5
  {
    assert "5"[1..] == "" && "5"[..0] == "" && "5z"[1..] == "z" && HexPrefix("z") == "" && HexPrefix("") == "";
  }

  /** Where the 64-bit range ends, and what a number is: each digit counts sixteen times the next. */
  lemma RangeEnds(t: string)
    requires t != "" && AllHex(t)
    ensures HexValue(t) < 0x8000_0000_0000_0000 ==> ToByte(t) == HexValue(t) % 256
    ensures HexValue(t) >= 0x8000_0000_0000_0000 ==> ToByte(t) == 255
    ensures HexValue(t) == 16 * HexValue(t[..|t| - 1]) + HexValue([t[|t| - 1]])
  {
    TokenByte(t);
    hide ToByte, DigitValue, IsHexDigit;
    AppendDigit("", t[|t| - 1]);
    assert "" + [t[|t| - 1]] == [t[|t| - 1]];
  }

  // ---- The grammars, on any text ----

  /** Which texts are read in pairs. */
  lemma PackedIff(s: string)
    ensures IsPacked(s) <==> |s| % 2 == 0 && forall i :: 0 <= i < |s| ==> s[i] !in ", \t:"
  {
    assert forall c :: IsDelimiter(c) <==> c in ", \t:";
    hide IsDelimiter;
  }

  lemma {:induction false} DigitsAreCollected(a: string, rest: string, cur: string)
    requires AllHex(a)
    ensures Tokens(a + rest, cur) == Tokens(rest, cur + a)
  {
    if a == "" {
      assert a + rest == rest && cur + a == cur;
    } else {
      assert (a + rest)[0] == a[0] && (a + rest)[1..] == a[1..] + rest;
      DigitsAreCollected(a[1..], rest, cur + [a[0]]);
      assert cur + [a[0]] + a[1..] == cur + a;
    }
  }

  /** All other texts are cut at every character that is no digit, save an x right behind a lone 0. */
  lemma WhereTokensEnd(a: string, c: char, b: string)
    requires AllHex(a) && !IsHexDigit(c)
    ensures Tokens(a + [c] + b, "") ==
            if c == 'x' && a == "0" then Tokens(b, "0x") else (if a == "" then [] else [a]) + Tokens(b, "")
    ensures Tokens(a + [c] + b, "0x") == ["0x" + a] + Tokens(b, "")
  {
    assert a + [c] + b == a + ([c] + b) && ([c] + b)[1..] == b && "" + a == a;
    DigitsAreCollected(a, [c] + b, "");
    DigitsAreCollected(a, [c] + b, "0x");
    assert "0" + ['x'] == "0x" && ("0x" + a)[0] == '0' && |"0x" + a| >= 2;
  }

  lemma LastToken(a: string)
    requires AllHex(a)
    ensures Tokens(a, "") == (if a == "" then [] else [a]) && Tokens(a, "0x") == ["0x" + a]
  {
    assert a + "" == a && "" + a == a;
    DigitsAreCollected(a, "", "");
    DigitsAreCollected(a, "", "0x");
  }

  /** strtol itself: a sign, a marker in either case, and digits, clamped to 64 bits. */
  lemma StrtolReads(sign: string, marker: string, t: string)
    requires sign == "" || sign == "+" || sign == "-"
    requires marker == "" || marker == "0x" || marker == "0X"
    requires t != "" && AllHex(t)
    ensures var v: int := HexValue(t);
            Strtol16(sign + marker + t) ==
            if sign == "-" then (if v > 0x8000_0000_0000_0000 then -0x8000_0000_0000_0000 else -v)
            else if v >= 0x8000_0000_0000_0000 then 0x7FFF_FFFF_FFFF_FFFF else v
  {
    hide *;
    var s, u := sign + marker + t, marker + t;
    assert s == sign + u;
    UnsignedReads(marker, t);
    FirstIsDigit(marker, t);
    SignIsRead(sign, u);
    StrtolIs(s, u, t);
  }

  lemma StrtolIs(s: string, u: string, t: string)
    requires s != "" && SkipSpaces(s) == s && u == if s[0] == '-' || s[0] == '+' then s[1..] else s
    requires AllHex(t) && HexPrefix(if HasHexMarker(u) then u[2..] else u) == t
    ensures var v: int := HexValue(t);
            Strtol16(s) ==
            if s[0] == '-' then (if v > 0x8000_0000_0000_0000 then -0x8000_0000_0000_0000 else -v)
            else if v >= 0x8000_0000_0000_0000 then 0x7FFF_FFFF_FFFF_FFFF else v
  {
    hide HexValue, HexPrefix, HasHexMarker, SkipSpaces, AllHex;
  }

  lemma SignIsRead(sign: string, u: string)
    requires sign == "" || sign == "+" || sign == "-"
    requires u != "" && IsHexDigit(u[0])
    ensures var s := sign + u;
            && s != "" && SkipSpaces(s) == s
            && (s[0] == '-' <==> sign == "-")
            && (if s[0] == '-' || s[0] == '+' then s[1..] else s) == u
  {
    var s := sign + u;
    assert s[0] == if sign == "" then u[0] else sign[0];
    assert sign != "" ==> s[1..] == u;
  }

  lemma FirstIsDigit(marker: string, t: string)
    requires marker == "" || marker == "0x" || marker == "0X"
    requires t != "" && AllHex(t)
    ensures (marker + t) != "" && IsHexDigit((marker + t)[0])
  {
    assert (marker + t)[0] == if marker == "" then t[0] else '0';
  }

  lemma UnsignedReads(marker: string, t: string)
    requires marker == "" || marker == "0x" || marker == "0X"
    requires t != "" && AllHex(t)
    ensures var u := marker + t; HexPrefix(if HasHexMarker(u) then u[2..] else u) == t
  {
    HexPrefixOfHex(t);
    hide HexPrefix;
    var u := marker + t;
    if marker == "" {
      assert u == t && (|t| >= 2 ==> IsHexDigit(t[1]));
    } else {
      assert u[2] == t[0] && u[2..] == t;
    }
  }
}
