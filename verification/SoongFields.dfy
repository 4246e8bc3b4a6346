/** Reading one field out of a Soong block the way the scripts' regular expressions do:
    the first `\bKEY\s*:\s*` whose value starts as wanted. */
module SoongFields {
  import opened Text

  /** \w for ASCII text. */
  predicate IsWord(c: char) {
    'a' <= c <= 'z' || 'A' <= c <= 'Z' || '0' <= c <= '9' || c == '_'
  }

  lemma WordsAre(c: char)
    ensures IsWord(c) <==>
            || c in "abcdefghijklmnopqrstuvwxyz"
            || c in "ABCDEFGHIJKLMNOPQRSTUVWXYZ"
            || c in "0123456789_"
  {
  }

  predicate IsKey(key: string) {
    key != "" && forall i :: 0 <= i < |key| ==> IsWord(key[i])
  }

  function SkipSpace(s: string, i: nat): (r: nat)
    requires i <= |s|
    ensures i <= r <= |s|
    ensures r < |s| ==> !IsSpace(s[r])
    ensures i < r ==> IsSpace(s[r - 1])
    decreases |s| - i
  {
    if i < |s| && IsSpace(s[i]) then SkipSpace(s, i + 1) else i
  }

  /** Just past a match of `\bKEY\s*:\s*` at p, or -1. */
  function KeyEnd(s: string, key: string, p: nat): (e: int)
    ensures e == -1 || p + |key| < e <= |s|
  {
    if !OccursAt(s, key, p) || (p > 0 && IsWord(s[p - 1])) then -1
    else
      var c := SkipSpace(s, p + |key|);
      if c < |s| && s[c] == ':' then SkipSpace(s, c + 1) else -1
  }

  datatype ValueKind = Bracket | TrueOrFalse | Vintf

  predicate StartsValue(s: string, i: nat, kind: ValueKind) {
    match kind
    case Bracket => i < |s| && s[i] == '['
    case TrueOrFalse => OccursAt(s, "true", i) || OccursAt(s, "false", i)
    case Vintf => OccursAt(s, Quoted("vintf"), i)
  }

  /** Where the value of the first match at or after start begins, or -1. */
  function FindValue(s: string, key: string, kind: ValueKind, start: nat): (e: int)
    ensures e == -1 || (0 <= e <= |s| && StartsValue(s, e, kind))
    decreases |s| - start
  {
    if start >= |s| then -1
    else
      var e := KeyEnd(s, key, start);
      if e >= 0 && StartsValue(s, e, kind) then e else FindValue(s, key, kind, start + 1)
  }

  /** The text from the value on. */
  function ValueText(s: string, key: string, kind: ValueKind): Option<string> {
    var e := FindValue(s, key, kind, 0);
    if e == -1 then None else Some(s[e..])
  }

  // ---- Where a key can match at all ----

  predicate Inert(c: char) {
    !IsWord(c) && !IsSpace(c)
  }

  /** s differs from pat at j before either ends, so pat does not stand there however s goes on. */
  predicate Differs(s: string, j: nat, pat: string) {
    exists k :: 0 <= k < |pat| && j + k < |s| && s[j + k] != pat[k]
  }

  /** No value of any kind starts at j, however s goes on. */
  predicate NoValueAt(s: string, j: nat) {
    && j < |s| && s[j] != '['
    && Differs(s, j, "true") && Differs(s, j, "false") && Differs(s, j, Quoted("vintf"))
  }

  /** No colon of s makes a field: each is first, follows a character that is neither a word
      character nor white space, or has no value behind it. */
  predicate Quiet(s: string) {
    forall i :: 0 < i < |s| && s[i] == ':' ==> Inert(s[i - 1]) || NoValueAt(s, SkipSpace(s, i + 1))
  }

  lemma DiffersMeans(s: string, rest: string, j: nat, pat: string)
    requires Differs(s, j, pat)
    ensures Differs(s + rest, j, pat) && !OccursAt(s + rest, pat, j)
  {
    var k :| 0 <= k < |pat| && j + k < |s| && s[j + k] != pat[k];
    assert (s + rest)[j + k] == s[j + k];
    if OccursAt(s + rest, pat, j) {
      CharAt(s + rest, pat, j, k);
    }
  }

  lemma NoValueStays(s: string, rest: string, j: nat, kind: ValueKind)
    requires NoValueAt(s, j)
    ensures NoValueAt(s + rest, j) && !StartsValue(s + rest, j, kind)
  {
    hide Differs, OccursAt;
    DiffersMeans(s, rest, j, "true");
    DiffersMeans(s, rest, j, "false");
    DiffersMeans(s, rest, j, Quoted("vintf"));
  }

  /** The colon a match ends on follows the key or white space. */
  lemma MatchColon(s: string, key: string, p: nat) returns (c: nat)
    requires IsKey(key) && KeyEnd(s, key, p) != -1
    ensures p + |key| <= c < |s| && s[c] == ':' && c == SkipSpace(s, p + |key|)
    ensures KeyEnd(s, key, p) == SkipSpace(s, c + 1)
    ensures OccursAt(s, key, p) && (p > 0 ==> !IsWord(s[p - 1]))
    ensures !Inert(s[c - 1])
    ensures c > p + |key| ==> IsSpace(s[c - 1])
    ensures c == p + |key| ==> s[c - 1] == key[|key| - 1]
  {
    c := SkipSpace(s, p + |key|);
    CharAt(s, key, p, |key| - 1);
  }

  lemma QuietHasNoMatch(s: string, key: string, p: nat, kind: ValueKind)
    requires IsKey(key) && Quiet(s)
    ensures KeyEnd(s, key, p) == -1 || !StartsValue(s, KeyEnd(s, key, p), kind)
  {
    hide *;
    if KeyEnd(s, key, p) != -1 {
      var c := MatchColon(s, key, p);
      KeyIsSome(key);
      QuietColon(s, c);
      NoValueStays(s, "", SkipSpace(s, c + 1), kind);
      assert s + "" == s;
    }
  }

  lemma QuietColon(s: string, c: nat)
    requires Quiet(s) && 0 < c < |s| && s[c] == ':' && !Inert(s[c - 1])
    ensures NoValueAt(s, SkipSpace(s, c + 1))
  {
    hide NoValueAt, Inert;
  }

  lemma KeyIsSome(key: string)
    requires IsKey(key)
    ensures key != ""
  {
  }

  lemma {:induction false} NothingFound(s: string, key: string, kind: ValueKind, start: nat)
    requires IsKey(key) && Quiet(s)
    ensures FindValue(s, key, kind, start) == -1
    decreases |s| - start
  {
    hide KeyEnd, StartsValue, Quiet, IsKey;
    if start < |s| {
      QuietHasNoMatch(s, key, start, kind);
      NothingFound(s, key, kind, start + 1);
    }
  }

  /** lead is quiet and ends outside a word, so that name is the word before the colon. */
  predicate LeadsTo(lead: string, name: string) {
    Quiet(lead) && (lead != "" ==> !IsWord(lead[|lead| - 1])) && IsKey(name)
  }

  function Keyed(lead: string, name: string, rest: string): string {
    lead + name + ":" + rest
  }

  lemma KeyedIs(lead: string, name: string, rest: string)
    ensures Keyed(lead, name, rest) == (lead + name + ":") + rest
  {
  }

  lemma KeyedChars(lead: string, name: string, rest: string, i: nat)
    requires i < |Keyed(lead, name, rest)|
    ensures Keyed(lead, name, rest)[i] ==
            if i < |lead| then lead[i]
            else if i < |lead| + |name| then name[i - |lead|]
            else if i == |lead| + |name| then ':'
            else rest[i - |lead| - |name| - 1]
  {
  }

  /** Up to the first field's colon, only the field's own name can have a value. */
  lemma OnlyOwnName(lead: string, name: string, rest: string, key: string, p: nat, kind: ValueKind)
    requires LeadsTo(lead, name) && IsKey(key) && p <= |lead| + |name|
    requires KeyEnd(Keyed(lead, name, rest), key, p) != -1
    requires StartsValue(Keyed(lead, name, rest), KeyEnd(Keyed(lead, name, rest), key, p), kind)
    ensures p == |lead| && key == name
  {
    hide *;
    var s := Keyed(lead, name, rest);
    var c := MatchColon(s, key, p);
    KeyIsSome(key);
    if c < |lead| {
      NoValueInLead(lead, name, rest, c, kind);
    } else {
      ColonIsOwn(lead, name, rest, key, p, c);
      OwnNameIsKey(lead, name, rest, key, p);
    }
  }

  /** A colon inside the lead that follows a word or white space has no value behind it. */
  lemma NoValueInLead(lead: string, name: string, rest: string, c: nat, kind: ValueKind)
    requires LeadsTo(lead, name) && 0 < c < |lead|
    requires Keyed(lead, name, rest)[c] == ':' && !Inert(Keyed(lead, name, rest)[c - 1])
    ensures !StartsValue(Keyed(lead, name, rest), SkipSpace(Keyed(lead, name, rest), c + 1), kind)
  {
    var s := Keyed(lead, name, rest);
    var more := name + ":" + rest;
    assert s == lead + more;
    assert lead[c] == s[c] && lead[c - 1] == s[c - 1];
    assert NoValueAt(lead, SkipSpace(lead, c + 1));
    hide Keyed, Quiet, NoValueAt, StartsValue;
    SkipSpaceWithin(lead, more, c + 1);
    NoValueStays(lead, more, SkipSpace(lead, c + 1), kind);
  }

  lemma SkipSpaceWithin(s: string, rest: string, i: nat)
    requires i <= |s| && SkipSpace(s, i) < |s|
    ensures SkipSpace(s + rest, i) == SkipSpace(s, i)
    decreases |s| - i
  {
    hide IsSpace;
    assert i < |s| && (s + rest)[i] == s[i];
    if IsSpace(s[i]) {
      SkipSpaceWithin(s, rest, i + 1);
    }
  }

  /** The key that ends at the field's colon is the field's name. */
  lemma OwnNameIsKey(lead: string, name: string, rest: string, key: string, p: nat)
    requires LeadsTo(lead, name) && IsKey(key) && p + |key| == |lead| + |name|
    requires OccursAt(Keyed(lead, name, rest), key, p)
    requires p > 0 ==> !IsWord(Keyed(lead, name, rest)[p - 1])
    ensures p == |lead| && key == name
  {
    hide Quiet;
    var s := Keyed(lead, name, rest);
    assert lead != "" ==> s[|lead| - 1] == lead[|lead| - 1];
    if p > 0 {
      KeyedChars(lead, name, rest, p - 1);
    }
    assert p == |lead| ==> s[p..p + |key|] == name;
    if p < |lead| {
      CharAt(s, key, p, |lead| - 1 - p);
    }
  }

  lemma ColonIsOwn(lead: string, name: string, rest: string, key: string, p: nat, c: nat)
    requires LeadsTo(lead, name) && IsKey(key) && p <= |lead| + |name|
    requires OccursAt(Keyed(lead, name, rest), key, p)
    requires c == SkipSpace(Keyed(lead, name, rest), p + |key|) && |lead| <= c < |Keyed(lead, name, rest)|
    requires Keyed(lead, name, rest)[c] == ':' && c > 0
    requires c > p + |key| ==> IsSpace(Keyed(lead, name, rest)[c - 1])
    ensures c == p + |key| == |lead| + |name|
  {
    hide Quiet;
    var s := Keyed(lead, name, rest);
    var colon := |lead| + |name|;
    KeyedChars(lead, name, rest, c);
    KeyedChars(lead, name, rest, colon);
    KeyedChars(lead, name, rest, colon - 1);
    assert c >= colon;
    if p + |key| > colon {
      CharAt(s, key, p, colon - p);
    } else {
      StopsAt(s, p + |key|, colon);
    }
    WordIsNotSpace(name[|name| - 1]);
  }

  lemma WordIsNotSpace(c: char)
    ensures IsWord(c) ==> !IsSpace(c)
  {
  }

  lemma StopsAt(s: string, i: nat, j: nat)
    requires i <= j < |s| && !IsSpace(s[j])
    ensures SkipSpace(s, i) <= j
    decreases j - i
  {
    if i < j && IsSpace(s[i]) {
      StopsAt(s, i + 1, j);
    }
  }

  // ---- Reading past a field ----

  lemma SkipSpaceShift(a: string, rest: string, q: nat)
    requires q <= |rest|
    ensures SkipSpace(a + rest, |a| + q) == |a| + SkipSpace(rest, q)
    decreases |rest| - q
  {
    if q < |rest| && IsSpace(rest[q]) {
      SkipSpaceShift(a, rest, q + 1);
    }
  }

  lemma OccursShift(a: string, rest: string, pat: string, q: nat)
    ensures OccursAt(a + rest, pat, |a| + q) <==> OccursAt(rest, pat, q)
  {
    if q + |pat| <= |rest| {
      assert (a + rest)[|a| + q..|a| + q + |pat|] == rest[q..q + |pat|];
    }
  }

  lemma KeyEndShift(a: string, rest: string, key: string, q: nat)
    requires q <= |rest| && a != "" && !IsWord(a[|a| - 1])
    ensures KeyEnd(a + rest, key, |a| + q) ==
            if KeyEnd(rest, key, q) == -1 then -1 else |a| + KeyEnd(rest, key, q)
  {
    hide OccursAt, IsSpace, IsWord, SkipSpace;
    OccursShift(a, rest, key, q);
    if OccursAt(rest, key, q) {
      OccursBound(rest, key, q);
      OccursBound(a + rest, key, |a| + q);
      var c := SkipSpace(rest, q + |key|);
      SkipSpaceShift(a, rest, q + |key|);
      if c < |rest| {
        assert (a + rest)[|a| + c] == rest[c];
        SkipSpaceShift(a, rest, c + 1);
      }
    }
  }

  lemma OccursBound(s: string, pat: string, i: int)
    requires OccursAt(s, pat, i)
    ensures 0 <= i && i + |pat| <= |s|
  {
  }

  lemma StartsValueShift(a: string, rest: string, i: nat, kind: ValueKind)
    ensures StartsValue(a + rest, |a| + i, kind) <==> StartsValue(rest, i, kind)
  {
    OccursShift(a, rest, "true", i);
    OccursShift(a, rest, "false", i);
    OccursShift(a, rest, Quoted("vintf"), i);
  }

  lemma {:induction false} FindValueShift(a: string, rest: string, key: string, kind: ValueKind, q: nat)
    requires a != "" && !IsWord(a[|a| - 1])
    ensures FindValue(a + rest, key, kind, |a| + q) ==
            if FindValue(rest, key, kind, q) == -1 then -1 else |a| + FindValue(rest, key, kind, q)
    decreases |rest| - q
  {
    hide KeyEnd, StartsValue;
    if q < |rest| {
      KeyEndShift(a, rest, key, q);
      var e := KeyEnd(rest, key, q);
      if e != -1 {
        StartsValueShift(a, rest, e, kind);
      }
      FindValueShift(a, rest, key, kind, q + 1);
    }
  }

  lemma {:induction false} FindFrom(s: string, key: string, kind: ValueKind, start: nat, later: nat)
    requires start <= later
    requires forall p :: start <= p < later && p < |s| ==>
               KeyEnd(s, key, p) == -1 || !StartsValue(s, KeyEnd(s, key, p), kind)
    ensures FindValue(s, key, kind, start) == FindValue(s, key, kind, later)
    decreases later - start
  {
    hide KeyEnd, StartsValue;
    if start < later && start < |s| {
      FindFrom(s, key, kind, start + 1, later);
    }
  }

  /** The value of the field that text starts with, white space skipped. */
  function FirstValue(rest: string): string {
    rest[SkipSpace(rest, 0)..]
  }

  lemma OwnColon(lead: string, name: string, rest: string)
    requires LeadsTo(lead, name)
    ensures OccursAt(Keyed(lead, name, rest), name, |lead|)
    ensures |lead| > 0 ==> !IsWord(Keyed(lead, name, rest)[|lead| - 1])
    ensures Keyed(lead, name, rest)[|lead| + |name|] == ':'
    ensures SkipSpace(Keyed(lead, name, rest), |lead| + |name|) == |lead| + |name|
  {
    hide IsWord, Quiet;
    assert Keyed(lead, name, rest)[|lead|..|lead| + |name|] == name;
  }

  lemma OwnKeyEnd(lead: string, name: string, rest: string)
    requires LeadsTo(lead, name)
    ensures KeyEnd(Keyed(lead, name, rest), name, |lead|) == |lead| + |name| + 1 + SkipSpace(rest, 0)
  {
    hide LeadsTo, OccursAt, IsWord, SkipSpace;
    OwnColon(lead, name, rest);
    SkipSpaceShift(lead + name + ":", rest, 0);
  }

  /** A field of another name, or with another kind of value, is read past. */
  lemma SkipField(lead: string, name: string, rest: string, key: string, kind: ValueKind)
    requires LeadsTo(lead, name) && IsKey(key)
    requires name == key ==> !StartsValue(rest, SkipSpace(rest, 0), kind)
    ensures ValueText(Keyed(lead, name, rest), key, kind) == ValueText(rest, key, kind)
  {
    hide LeadsTo, IsKey, OccursAt, FindValue, KeyEnd, StartsValue, ValueText, SkipSpace, Keyed;
    var s := Keyed(lead, name, rest);
    var a := lead + name + ":";
    assert s == a + rest by { KeyedIs(lead, name, rest); }
    forall p | 0 <= p < |a| && p < |s|
      ensures KeyEnd(s, key, p) == -1 || !StartsValue(s, KeyEnd(s, key, p), kind)
    {
      SkippedMatch(lead, name, rest, key, kind, p);
    }
    FindFrom(s, key, kind, 0, |a|);
    ValueTextShift(a, rest, key, kind);
  }

  lemma ValueTextShift(a: string, rest: string, key: string, kind: ValueKind)
    requires a != "" && !IsWord(a[|a| - 1])
    requires FindValue(a + rest, key, kind, 0) == FindValue(a + rest, key, kind, |a|)
    ensures ValueText(a + rest, key, kind) == ValueText(rest, key, kind)
  {
    hide FindValue, IsWord;
    FindValueShift(a, rest, key, kind, 0);
    var e := FindValue(rest, key, kind, 0);
    if e != -1 {
      assert (a + rest)[|a| + e..] == rest[e..];
    }
  }

  lemma SkippedMatch(lead: string, name: string, rest: string, key: string, kind: ValueKind, p: nat)
    requires LeadsTo(lead, name) && IsKey(key) && p <= |lead| + |name|
    requires name == key ==> !StartsValue(rest, SkipSpace(rest, 0), kind)
    ensures var e := KeyEnd(Keyed(lead, name, rest), key, p);
            e == -1 || !StartsValue(Keyed(lead, name, rest), e, kind)
  {
    hide LeadsTo, IsKey, OccursAt, StartsValue, KeyEnd;
    var s := Keyed(lead, name, rest);
    if KeyEnd(s, key, p) != -1 && StartsValue(s, KeyEnd(s, key, p), kind) {
      OnlyOwnName(lead, name, rest, key, p, kind);
      OwnKeyEnd(lead, name, rest);
      assert s == (lead + name + ":") + rest;
      StartsValueShift(lead + name + ":", rest, SkipSpace(rest, 0), kind);
    }
  }

  /** The first field with the wanted name and kind of value is read. */
  lemma HitField(lead: string, key: string, rest: string, kind: ValueKind)
    requires LeadsTo(lead, key) && StartsValue(rest, SkipSpace(rest, 0), kind)
    ensures ValueText(Keyed(lead, key, rest), key, kind) == Some(FirstValue(rest))
  {
    hide LeadsTo, IsKey, OccursAt, StartsValue, KeyEnd;
    var s := Keyed(lead, key, rest);
    var a := lead + key + ":";
    assert s == a + rest;
    assert IsKey(key) by { KeyOf(lead, key); }
    forall p | 0 <= p < |lead| && p < |s|
      ensures KeyEnd(s, key, p) == -1 || !StartsValue(s, KeyEnd(s, key, p), kind)
    {
      if KeyEnd(s, key, p) != -1 && StartsValue(s, KeyEnd(s, key, p), kind) {
        OnlyOwnName(lead, key, rest, key, p, kind);
      }
    }
    FindFrom(s, key, kind, 0, |lead|);
    OwnKeyEnd(lead, key, rest);
    StartsValueShift(a, rest, SkipSpace(rest, 0), kind);
    assert s[|a| + SkipSpace(rest, 0)..] == FirstValue(rest);
  }

  lemma KeyOf(lead: string, name: string)
    requires LeadsTo(lead, name)
    ensures IsKey(name)
  {
  }

  lemma QuietHasNoValue(s: string, key: string, kind: ValueKind)
    requires Quiet(s) && IsKey(key)
    ensures ValueText(s, key, kind) == None
  {
    NothingFound(s, key, kind, 0);
  }
}
