/** The two payload scanners of the wake daemon (dt2w/dt2w_uewake.c): a kernel uevent is a
    byte buffer holding NUL-separated KEY=VALUE tokens. */
module UeventScan {
  import opened Text

  /** A C string literal: the bytes before its terminating NUL. */
  type CString = s: seq<byte> | 0 !in s

  /** Offset of the first NUL at or after i, or |s|: i + strnlen(s + i, |s| - i). */
  function SegmentEnd(s: seq<byte>, i: nat): (e: nat)
    requires i <= |s|
    ensures i <= e <= |s| && 0 !in s[i..e] && (e < |s| ==> s[e] == 0)
    decreases |s| - i
  {
    if i == |s| || s[i] == 0 then i
    else
      var e := SegmentEnd(s, i + 1);
      assert s[i..e] == [s[i]] + s[i + 1..e];
      e
  }

  /** [i, e) is a maximal NUL-free stretch of s, one token of the payload. */
  predicate IsSegment(s: seq<byte>, i: int, e: int) {
    && 0 <= i <= e <= |s|
    && 0 !in s[i..e]
    && (i == 0 || s[i - 1] == 0)
    && (e == |s| || s[e] == 0)
  }

  ghost predicate HasSegment(s: seq<byte>, tok: seq<byte>) {
    exists i, e :: IsSegment(s, i, e) && s[i..e] == tok
  }

  ghost predicate HasInfix(s: seq<byte>, needle: seq<byte>) {
    exists i :: OccursAt(s, needle, i)
  }

  /** The token test, walking token by token. An empty token has no use here but is still
      decided: the loop stops at len, so an empty token after a final NUL is not visited. */
  method HasToken(buf: array<byte>, len: nat, tok: CString) returns (found: bool)
    requires len <= buf.Length
    ensures tok != [] ==> (found <==> HasSegment(buf[..len], tok))
    ensures tok == [] ==> (found <==> exists e :: 0 <= e < len && IsSegment(buf[..len], e, e))
  {
    ghost var s := buf[..len];
    assert forall k :: 0 <= k < len ==> s[k] == buf[k];
    var i := 0;
    while i < len
      invariant 0 <= i <= len + 1
      invariant 0 < i <= len ==> s[i - 1] == 0
      invariant forall j, f :: IsSegment(s, j, f) && j < i && j < len ==> s[j..f] != tok
    {
      var sl := SegmentEnd(buf[..len], i) - i;
      assert IsSegment(s, i, i + sl) && s[i..i + sl] == buf[i..i + sl];
      if sl == |tok| && buf[i..i + sl] == tok {
        return true;
      }
      forall j, f | IsSegment(s, j, f) && j < i + sl + 1 && j < len
        ensures s[j..f] != tok
      {
        if i <= j {
        }
      }
      i := i + sl + 1;
    }
    return false;
  }

  /** The loose substring test: every offset, NUL bytes included. */
  method HasSubstr(buf: array<byte>, len: nat, needle: CString) returns (found: bool)
    requires len <= buf.Length
    ensures found <==> needle != [] && HasInfix(buf[..len], needle)
  {
    ghost var s := buf[..len];
    var nl := |needle|;
    if nl == 0 || len < nl {
      return false;
    }
    var i := 0;
    while i + nl <= len
      invariant 0 <= i <= len - nl + 1
      invariant forall j :: 0 <= j < i ==> !OccursAt(s, needle, j)
    {
      assert forall k :: i <= k < i + nl ==> s[k] == buf[k];
      assert s[i..i + nl] == buf[i..i + nl];
      if buf[i..i + nl] == needle {
        assert OccursAt(s, needle, i);
        return true;
      }
      i := i + 1;
    }
    return false;
  }

  lemma OneMoreFree(s: seq<byte>, i: nat, b: nat)
    requires 0 < i <= b <= |s| && s[i - 1] != 0 && 0 !in s[i..b]
    ensures 0 !in s[i - 1..b]
  {
    assert s[i - 1..b] == [s[i - 1]] + s[i..b];
  }

  lemma BothFree(s: seq<byte>, i: nat, b: nat, e: nat)
    requires i <= b <= e <= |s| && 0 !in s[i..b] && 0 !in s[b..e]
    ensures 0 !in s[i..e]
  {
    assert s[i..e] == s[i..b] + s[b..e];
  }

  /** The segment around a NUL-free stretch. */
  lemma EnclosingSegment(s: seq<byte>, a: nat, b: nat) returns (i: nat, e: nat)
    requires a < b <= |s| && 0 !in s[a..b]
    ensures IsSegment(s, i, e) && i <= a && b <= e
  {
    i := a;
    while 0 < i && s[i - 1] != 0
      invariant i <= a && 0 !in s[i..b]
    {
      OneMoreFree(s, i, b);
      i := i - 1;
    }
    e := SegmentEnd(s, b);
    BothFree(s, i, b, e);
  }

  /** Matches never straddle tokens: a needle occurs in the payload exactly when it occurs
      inside one single token. */
  lemma SubstrIsWithinOneToken(s: seq<byte>, needle: CString)
    requires needle != []
    ensures HasInfix(s, needle) <==> exists tok :: HasSegment(s, tok) && HasInfix(tok, needle)
  {
    if HasInfix(s, needle) {
      InfixIsInToken(s, needle);
    }
    if tok :| HasSegment(s, tok) && HasInfix(tok, needle) {
      TokenInfixIsInfix(s, tok, needle);
    }
  }

  lemma InfixIsInToken(s: seq<byte>, needle: CString)
    requires needle != [] && HasInfix(s, needle)
    ensures exists tok :: HasSegment(s, tok) && HasInfix(tok, needle)
  {
    var a :| OccursAt(s, needle, a);
    var i, e := EnclosingSegment(s, a, a + |needle|);
    hide IsSegment;
    var tok := s[i..e];
    SliceOfSlice(s, i, e, a - i, a - i + |needle|);
    assert OccursAt(tok, needle, a - i);
    assert HasSegment(s, tok);
  }

  lemma TokenInfixIsInfix(s: seq<byte>, tok: seq<byte>, needle: CString)
    requires HasSegment(s, tok) && HasInfix(tok, needle)
    ensures HasInfix(s, needle)
  {
    var i, e :| IsSegment(s, i, e) && s[i..e] == tok;
    var k :| OccursAt(tok, needle, k);
    SliceOfSlice(s, i, e, k, k + |needle|);
    assert OccursAt(s, needle, i + k);
  }

  /** A token hit is also a substring hit, for the token and for every part of it. */
  lemma TokenHitIsSubstrHit(s: seq<byte>, tok: CString, part: CString)
    requires part != [] && HasInfix(tok, part) && HasSegment(s, tok)
    ensures HasInfix(s, part)
  {
    SubstrIsWithinOneToken(s, part);
  }

  // ---- What the daemon looks for ----

  /** recv is given sizeof(buf) - 1 bytes: a longer datagram is cut. */
  const RECV_LIMIT := 4095

  /** An ASCII literal as bytes. */
  function Bytes(s: string): (b: CString)
    requires forall i :: 0 <= i < |s| ==> 0 < s[i] as int < 128
    ensures |b| == |s| && forall i :: 0 <= i < |s| ==> b[i] == s[i] as int
  {
    seq(|s|, i requires 0 <= i < |s| => s[i] as int)
  }

  const DOUBLE_TAP := Bytes("double_tap=true")
  const SCREEN_ON_FORMS := [Bytes("screen_on"), Bytes("lcd_on"), Bytes("lcd=on"), Bytes("POWER=on")]

  ghost predicate IsDoubleTap(s: seq<byte>) {
    HasSegment(s, DOUBLE_TAP)
  }

  ghost predicate IsScreenOn(s: seq<byte>) {
    exists k :: 0 <= k < |SCREEN_ON_FORMS| && HasInfix(s, SCREEN_ON_FORMS[k])
  }

  /** The short-circuited disjunction of the four searches. */
  method IsScreenOnUevent(buf: array<byte>, len: nat) returns (on: bool)
    requires len <= buf.Length
    ensures on <==> IsScreenOn(buf[..len])
  {
    on := HasSubstr(buf, len, SCREEN_ON_FORMS[0]);
    if !on { on := HasSubstr(buf, len, SCREEN_ON_FORMS[1]); }
    if !on { on := HasSubstr(buf, len, SCREEN_ON_FORMS[2]); }
    if !on { on := HasSubstr(buf, len, SCREEN_ON_FORMS[3]); }
  }

  /** Screen-on is decided token by token: no two neighbouring tokens can make a payload
      look like a screen-on event unless one of them already does. */
  lemma ScreenOnNeedsAToken(s: seq<byte>)
    ensures IsScreenOn(s) <==> exists tok :: HasSegment(s, tok) && IsScreenOn(tok)
  {
    forall k | 0 <= k < |SCREEN_ON_FORMS|
      ensures HasInfix(s, SCREEN_ON_FORMS[k]) <==>
              exists tok :: HasSegment(s, tok) && HasInfix(tok, SCREEN_ON_FORMS[k])
    {
      SubstrIsWithinOneToken(s, SCREEN_ON_FORMS[k]);
    }
  }

  // ---- The messages written out ----

  /** Exactly which messages make the daemon ask for an arm. */
  lemma WakingMessages(s: seq<byte>)
    ensures IsDoubleTap(s) <==> HasSegment(s, Bytes("double_tap=true"))
    ensures IsScreenOn(s) <==> HasInfix(s, Bytes("screen_on")) || HasInfix(s, Bytes("lcd_on"))
                               || HasInfix(s, Bytes("lcd=on")) || HasInfix(s, Bytes("POWER=on"))
  {
    hide HasInfix, HasSegment;
    assert SCREEN_ON_FORMS[0] == Bytes("screen_on") && SCREEN_ON_FORMS[1] == Bytes("lcd_on");
    assert SCREEN_ON_FORMS[2] == Bytes("lcd=on") && SCREEN_ON_FORMS[3] == Bytes("POWER=on");
  }

  /** The tokens that say the opposite. */
  predicate IsOffToken(tok: seq<byte>) {
    || tok == Bytes("screen_off") || tok == Bytes("lcd_off") || tok == Bytes("lcd=off") || tok == Bytes("POWER=off")
    || tok == Bytes("double_tap=false")
  }

  /** A screen-off message never re-arms: neither its own token wakes nor any other token that says
      none of the forms. */
  lemma ScreenOffNeverWakes(s: seq<byte>)
    requires forall tok :: HasSegment(s, tok)
                           && tok !in [Bytes("screen_off"), Bytes("lcd_off"), Bytes("lcd=off"), Bytes("POWER=off"),
                                       Bytes("double_tap=false")] ==>
               !IsScreenOn(tok) && tok != Bytes("double_tap=true")
    ensures !IsScreenOn(s) && !IsDoubleTap(s)
  {
    ScreenOnNeedsAToken(s);
    forall tok | HasSegment(s, tok)
      ensures !IsScreenOn(tok) && tok != Bytes("double_tap=true")
    {
      if IsOffToken(tok) {
        OffTokenIsOff(tok);
      }
    }
    hide IsScreenOn, HasSegment;
  }

  lemma OffTokenIsOff(tok: seq<byte>)
    requires IsOffToken(tok)
    ensures !IsScreenOn(tok) && tok != Bytes("double_tap=true")
  {
    NoForm(tok, 0);
    NoForm(tok, 1);
    NoForm(tok, 2);
    NoForm(tok, 3);
    assert tok == Bytes("double_tap=false") ==> |tok| == 16;
  }

  lemma NoForm(tok: seq<byte>, k: nat)
    requires IsOffToken(tok) && k < |SCREEN_ON_FORMS|
    ensures !HasInfix(tok, SCREEN_ON_FORMS[k])
  {
    var n := SCREEN_ON_FORMS[k];
    assert |n| >= 6 && n[|n| - 2] == 'o' as int && n[|n| - 1] == 'n' as int;
    forall i
      ensures !OccursAt(tok, n, i)
    {
      if OccursAt(tok, n, i) {
        CharAt(tok, n, i, |n| - 2);
        CharAt(tok, n, i, |n| - 1);
        NoOn(tok, i + |n| - 2);
      }
    }
  }

  lemma NoOn(tok: seq<byte>, i: nat)
    requires IsOffToken(tok) && i + 1 < |tok|
    ensures !(tok[i] == 'o' as int && tok[i + 1] == 'n' as int)
  {
  }
}
