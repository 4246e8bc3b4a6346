/** Searching and slicing sequences, of characters or of bytes, and the Python string operations
    the scripts use: find, rfind, strip, split, join. */
module Text {

  datatype Option<+T> = None | Some(value: T)

  type byte = x: int | 0 <= x < 256

  // ---- Searching ----

  predicate OccursAt<T(==)>(s: seq<T>, pat: seq<T>, i: int) {
    0 <= i && i + |pat| <= |s| && s[i..i + |pat|] == pat
  }

  /** s.find(pat, start): the first occurrence at or after start, or -1. */
  function Find(s: string, pat: string, start: nat): (r: int)
    ensures r == -1 || (start <= r <= |s| - |pat| && OccursAt(s, pat, r))
    ensures forall i :: start <= i && (r == -1 || i < r) ==> !OccursAt(s, pat, i)
    decreases |s| - start
  {
    if start + |pat| > |s| then -1
    else if OccursAt(s, pat, start) then start
    else Find(s, pat, start + 1)
  }

  /** pat in s */
  predicate Contains(s: string, pat: string) {
    Find(s, pat, 0) >= 0
  }

  lemma OccurrenceIsContained(s: string, pat: string, i: int)
    requires OccursAt(s, pat, i)
    ensures Contains(s, pat)
  {
  }

  /** A text standing at some offset, character by character and slice by slice. */
  lemma CharAt<T>(s: seq<T>, pat: seq<T>, i: int, k: nat)
    requires OccursAt(s, pat, i) && k < |pat|
    ensures s[i + k] == pat[k]
  {
    assert s[i..i + |pat|][k] == s[i + k];
  }

  lemma SliceAt(s: string, pat: string, i: int, a: nat, b: nat)
    requires OccursAt(s, pat, i) && a <= b <= |pat|
    ensures s[i + a..i + b] == pat[a..b]
  {
    SliceOfSlice(s, i, i + |pat|, a, b);
  }

  /** s.rfind(c, 0, end): the last c before end, or -1. */
  function RFindChar(s: string, c: char, end: nat): (r: int)
    requires end <= |s|
    ensures -1 <= r < end && (r >= 0 ==> s[r] == c)
    ensures forall i :: r < i < end ==> s[i] != c
  {
    if end == 0 then -1
    else if s[end - 1] == c then end - 1
    else RFindChar(s, c, end - 1)
  }

  function FindChar(s: string, c: char): (r: int)
    ensures -1 <= r < |s| && (r >= 0 ==> s[r] == c)
    ensures forall i :: 0 <= i < (if r == -1 then |s| else r) ==> s[i] != c
  {
    if s == "" then -1
    else if s[0] == c then 0
    else var r := FindChar(s[1..], c); if r == -1 then -1 else r + 1
  }

  lemma SliceOfSlice<T>(s: seq<T>, a: nat, b: nat, i: nat, j: nat)
    requires a <= b <= |s| && i <= j <= b - a
    ensures s[a..b][i..j] == s[a + i..a + j]
  {
    var inner, outer := s[a..b][i..j], s[a + i..a + j];
    assert forall x :: 0 <= x < j - i ==> inner[x] == outer[x];
  }

  lemma SameTail<T>(p: seq<T>, a: seq<T>, b: seq<T>)
    ensures p + a == p + b <==> a == b
  {
    assert a == (p + a)[|p|..] && b == (p + b)[|p|..];
  }

  lemma ContainsInSlice(s: string, pat: string, a: nat, b: nat)
    requires a <= b <= |s| && Contains(s[a..b], pat)
    ensures Contains(s, pat)
  {
    var i := Find(s[a..b], pat, 0);
    SliceOfSlice(s, a, b, i, i + |pat|);
    OccurrenceIsContained(s, pat, a + i);
  }

  /** The text between double quotes. */
  function Quoted(s: string): string {
    "\"" + s + "\""
  }

  // ---- White space: str.isspace, which is also \s of the re module ----

  predicate IsSpace(c: char) {
    || c == ' ' || '\t' <= c <= '\r' || '\U{1c}' <= c <= '\U{1f}' || c == '\U{85}' || c == '\U{a0}'
    || c == '\U{1680}' || '\U{2000}' <= c <= '\U{200a}' || c == '\U{2028}' || c == '\U{2029}'
    || c == '\U{202f}' || c == '\U{205f}' || c == '\U{3000}'
  }

  /** All the white space there is. */
  lemma SpacesAre(c: char)
    ensures IsSpace(c) <==>
            || c in "\t\n\U{b}\U{c}\r\U{1c}\U{1d}\U{1e}\U{1f} \U{85}\U{a0}\U{1680}"
            || c in "\U{2000}\U{2001}\U{2002}\U{2003}\U{2004}\U{2005}\U{2006}\U{2007}\U{2008}\U{2009}\U{200a}"
            || c in "\U{2028}\U{2029}\U{202f}\U{205f}\U{3000}"
  {
  }

  function LStrip(s: string): (r: string)
    ensures |r| <= |s| && (r != "" ==> !IsSpace(r[0]))
  {
    if s != "" && IsSpace(s[0]) then LStrip(s[1..]) else s
  }

  lemma {:induction false} LStripIsSuffix(s: string)
    ensures LStrip(s) == s[|s| - |LStrip(s)|..]
  {
    hide IsSpace;
    if s != "" && IsSpace(s[0]) {
      LStripIsSuffix(s[1..]);
    }
  }

  function RStrip(s: string): (r: string)
    ensures r <= s && (r != "" ==> !IsSpace(r[|r| - 1]))
  {
    if s != "" && IsSpace(s[|s| - 1]) then RStrip(s[..|s| - 1]) else s
  }

  function Strip(s: string): string {
    RStrip(LStrip(s))
  }

  lemma StripIsSlice(s: string)
    ensures exists a, b :: 0 <= a <= b <= |s| && Strip(s) == s[a..b]
  {
    LStripIsSuffix(s);
    var l := LStrip(s);
    var a := |s| - |l|;
    var b := a + |Strip(s)|;
    assert Strip(s) == l[..|Strip(s)|] == s[a..b];
  }

  lemma ContainedInStrip(s: string, pat: string)
    requires Contains(Strip(s), pat)
    ensures Contains(s, pat)
  {
    StripIsSlice(s);
    var a, b :| 0 <= a <= b <= |s| && Strip(s) == s[a..b];
    ContainsInSlice(s, pat, a, b);
  }

  // ---- split and join on one character ----

  function Split(s: string, c: char): (parts: seq<string>)
    ensures parts != []
    decreases |s|
  {
    var i := FindChar(s, c);
    if i == -1 then [s] else [s[..i]] + Split(s[i + 1..], c)
  }

  function Join(parts: seq<string>, sep: string): string {
    if parts == [] then ""
    else if |parts| == 1 then parts[0]
    else parts[0] + sep + Join(parts[1..], sep)
  }

  predicate Free(s: string, c: char) {
    forall i :: 0 <= i < |s| ==> s[i] != c
  }

  lemma {:induction false} SplitParts(s: string, c: char)
    ensures Join(Split(s, c), [c]) == s
    ensures forall k :: 0 <= k < |Split(s, c)| ==> Free(Split(s, c)[k], c)
    decreases |s|
  {
    var i := FindChar(s, c);
    if i != -1 {
      SplitParts(s[i + 1..], c);
      assert s == s[..i] + [c] + s[i + 1..];
      assert Split(s, c)[1..] == Split(s[i + 1..], c);
    }
  }

  /** join then split gives the parts back, when no part holds the separator. */
  lemma {:induction false} SplitOfJoin(parts: seq<string>, c: char)
    requires parts != [] && forall k :: 0 <= k < |parts| ==> Free(parts[k], c)
    ensures Split(Join(parts, [c]), c) == parts
  {
    var s := Join(parts, [c]);
    if |parts| == 1 {
      assert FindChar(s, c) == -1;
    } else {
      var rest := Join(parts[1..], [c]);
      assert s == parts[0] + [c] + rest && s[|parts[0]|] == c;
      assert FindChar(s, c) == |parts[0]| by {
        assert forall i :: 0 <= i < |parts[0]| ==> s[i] == parts[0][i];
      }
      assert s[|parts[0]| + 1..] == rest && s[..|parts[0]|] == parts[0];
      SplitOfJoin(parts[1..], c);
    }
  }

  lemma {:induction false} JoinConcat(a: seq<string>, b: seq<string>, sep: string)
    requires a != [] && b != []
    ensures Join(a + b, sep) == Join(a, sep) + sep + Join(b, sep)
  {
    assert (a + b)[1..] == a[1..] + b;
    if |a| == 1 {
      assert a[1..] + b == b;
    } else {
      JoinConcat(a[1..], b, sep);
    }
  }

  lemma SplitConcat(s: string, t: string, c: char)
    ensures Split(s + [c] + t, c) == Split(s, c) + Split(t, c)
  {
    hide Split, Join;
    SplitParts(s, c);
    SplitParts(t, c);
    var parts := Split(s, c) + Split(t, c);
    JoinConcat(Split(s, c), Split(t, c), [c]);
    forall k | 0 <= k < |parts|
      ensures Free(parts[k], c)
    {
    }
    SplitOfJoin(parts, c);
  }

  /** os.path.basename */
  function Basename(rel: string): string {
    var parts := Split(rel, '/');
    parts[|parts| - 1]
  }

  // ---- Digits ----

  predicate IsDigit(c: char) {
    '0' <= c <= '9'
  }

  predicate AllDigits(s: string) {
    forall i :: 0 <= i < |s| ==> IsDigit(s[i])
  }

  function Dec(n: nat): (s: string)
    ensures s != "" && AllDigits(s)
  {
    (if n < 10 then "" else Dec(n / 10)) + [(n % 10 + '0' as int) as char]
  }

  /** int(s) */
  function FromDec(s: string): nat
    requires AllDigits(s)
  {
    if s == "" then 0 else 10 * FromDec(s[..|s| - 1]) + (s[|s| - 1] as int - '0' as int)
  }

  /** A numeral is its digits, the greatest power first. */
  lemma NumeralsAreSpelled(n: nat, d: nat)
    requires d < 10
    ensures Dec(d) == ["0123456789"[d]]
    ensures n > 0 ==> Dec(10 * n + d) == Dec(n) + ["0123456789"[d]]
  {
    DigitIs(d);
    var m := 10 * n + d;
    assert m / 10 == n && m % 10 == d;
  }

  lemma NumeralsAreRead(s: string, d: nat)
    requires d < 10 && AllDigits(s)
    ensures AllDigits(s + ["0123456789"[d]]) && FromDec(s + ["0123456789"[d]]) == 10 * FromDec(s) + d
  {
    DigitIs(d);
    var c := "0123456789"[d];
    assert (s + [c])[..|s|] == s;
  }

  lemma DigitIs(d: nat)
    requires d < 10
    ensures "0123456789"[d] == (d + '0' as int) as char
  {
  }

  lemma {:induction false} DecRoundTrip(n: nat)
    ensures FromDec(Dec(n)) == n
  {
    var s := Dec(n);
    assert s[|s| - 1] as int - '0' as int == n % 10;
    if n < 10 {
      assert s[..|s| - 1] == "";
    } else {
      assert s[..|s| - 1] == Dec(n / 10);
      DecRoundTrip(n / 10);
    }
  }
}
