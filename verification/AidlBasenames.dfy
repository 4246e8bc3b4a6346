/** Prebuilt library names (verify_aidl_versions.py, BN_RE): a domain, a family and a version. */
module AidlBasenames {
  import opened Text

  datatype Prebuilt = Prebuilt(top: string, sub: string, family: string, version: nat)

  /** The alternatives of the expression, in its order. */
  const DOMAINS: seq<(string, string)> :=
    [("android", "hardware"), ("android", "system"), ("android", "media"), ("android", "frameworks"),
     ("vendor", "qti")]

  predicate IsFamilyChar(c: char) {
    'a' <= c <= 'z' || 'A' <= c <= 'Z' || '0' <= c <= '9' || c == '_' || c == '.'
  }

  predicate IsFamily(s: string) {
    s != "" && forall i :: 0 <= i < |s| ==> IsFamilyChar(s[i])
  }

  const MARK := "-V"
  const SUFFIX := "-ndk.so"

  /** `$` also matches before one final line break. */
  predicate IsEnd(s: string) {
    s == SUFFIX || s == SUFFIX + "\n"
  }

  function Stem(domain: (string, string)): string {
    domain.0 + "." + domain.1 + "."
  }

  /** The length of the longest run of characters of a class: what a greedy class takes. */
  function RunLength(s: string, inClass: char -> bool): (n: nat)
    ensures n <= |s| && (n < |s| ==> !inClass(s[n]))
    ensures forall i :: 0 <= i < n ==> inClass(s[i])
  {
    if s != "" && inClass(s[0]) then 1 + RunLength(s[1..], inClass) else 0
  }

  /** What follows the stem: family, version mark, digits, suffix. */
  function ParseRest(s: string): Option<(string, string)> {
    var f := RunLength(s, IsFamilyChar);
    if f == 0 || !(MARK <= s[f..]) then None
    else
      var v := s[f + |MARK|..];
      var d := RunLength(v, IsDigit);
      if d == 0 || !IsEnd(v[d..]) then None else Some((s[..f], v[..d]))
  }

  function ParseFrom(s: string, k: nat): (r: Option<Prebuilt>)
    requires k <= |DOMAINS|
    decreases |DOMAINS| - k
  {
    if k == |DOMAINS| then None
    else
      var stem := Stem(DOMAINS[k]);
      if stem <= s && ParseRest(s[|stem|..]).Some? then
        var (family, digits) := ParseRest(s[|stem|..]).value;
        DigitsAreDigits(s[|stem|..]);
        Some(Prebuilt(DOMAINS[k].0, DOMAINS[k].1, family, FromDec(digits)))
      else ParseFrom(s, k + 1)
  }

  function Parse(s: string): Option<Prebuilt> {
    ParseFrom(s, 0)
  }

  lemma DigitsAreDigits(s: string)
    ensures match ParseRest(s)
            case Some((_, digits)) => AllDigits(digits)
            case None => true
  {
  }

  /** The names the expression stands for, written out. */
  ghost predicate Spells(s: string, p: Prebuilt, digits: string, end: string) {
    && (p.top, p.sub) in DOMAINS && IsFamily(p.family)
    && digits != "" && AllDigits(digits) && FromDec(digits) == p.version && IsEnd(end)
    && s == Stem((p.top, p.sub)) + (p.family + (MARK + (digits + end)))
  }

  lemma {:induction false} RunThenStop(run: string, rest: string, inClass: char -> bool)
    requires forall i :: 0 <= i < |run| ==> inClass(run[i])
    requires rest != "" && !inClass(rest[0])
    ensures RunLength(run + rest, inClass) == |run|
  {
    if run == "" {
      assert run + rest == rest;
    } else {
      assert (run + rest)[1..] == run[1..] + rest;
      RunThenStop(run[1..], rest, inClass);
    }
  }

  lemma MarkEndsFamily()
    ensures MARK[0] == '-' && !IsFamilyChar('-')
  {
  }

  lemma RestReadsBack(family: string, digits: string, end: string)
    requires IsFamily(family) && digits != "" && AllDigits(digits) && IsEnd(end)
    ensures ParseRest(family + (MARK + (digits + end))) == Some((family, digits))
  {
    MarkEndsFamily();
    assert end[0] == '-' && !IsDigit('-') && end != "";
    hide IsFamilyChar, RunLength, IsEnd, AllDigits;
    var v := digits + end;
    RunThenStop(family, MARK + v, IsFamilyChar);
    RunThenStop(digits, end, IsDigit) by { DigitsAreInClass(digits); }
    CutRest(family, MARK, v);
    CutEnd(digits, end);
  }

  lemma DigitsAreInClass(digits: string)
    requires AllDigits(digits)
    ensures forall i :: 0 <= i < |digits| ==> IsDigit(digits[i])
  {
  }

  lemma CutRest(family: string, mark: string, v: string)
    ensures var s := family + (mark + v);
            && s[|family|..] == mark + v && s[..|family|] == family && mark <= mark + v
            && s[|family| + |mark|..] == v
  {
  }

  lemma CutEnd(digits: string, end: string)
    ensures (digits + end)[|digits|..] == end && (digits + end)[..|digits|] == digits
  {
  }

  lemma RestIsSpelled(s: string)
    requires ParseRest(s).Some?
    ensures var (family, digits) := ParseRest(s).value;
            && IsFamily(family) && digits != "" && AllDigits(digits)
            && exists end :: IsEnd(end) && s == family + (MARK + (digits + end))
  {
    hide *;
    var f, d := RestParts(s);
    CutTwice(s, f, MARK, d);
  }

  lemma RestParts(s: string) returns (f: nat, d: nat)
    requires ParseRest(s).Some?
    ensures 0 < f <= |s| && MARK <= s[f..] && 0 < d <= |s[f + |MARK|..]|
    ensures IsFamily(s[..f]) && AllDigits(s[f + |MARK|..][..d]) && IsEnd(s[f + |MARK|..][d..])
    ensures ParseRest(s).value == (s[..f], s[f + |MARK|..][..d])
  {
    hide RunLength, IsEnd;
    f := RunLength(s, IsFamilyChar);
    d := RunLength(s[f + |MARK|..], IsDigit);
  }

  lemma CutTwice(s: string, f: nat, mark: string, d: nat)
    requires f <= |s| && mark <= s[f..] && d <= |s[f + |mark|..]|
    ensures s == s[..f] + (mark + (s[f + |mark|..][..d] + s[f + |mark|..][d..]))
  {
    var v := s[f + |mark|..];
    assert s[f..] == mark + v;
    assert v == v[..d] + v[d..];
  }

  /** No two stems can start the same name. */
  lemma StemsDiffer(s: string, j: nat, k: nat)
    requires j < |DOMAINS| && k < |DOMAINS| && Stem(DOMAINS[j]) <= s && Stem(DOMAINS[k]) <= s
    ensures j == k
  {
    var a, b := Stem(DOMAINS[j]), Stem(DOMAINS[k]);
    assert forall i :: 0 <= i < |a| ==> s[i] == a[i];
    assert forall i :: 0 <= i < |b| ==> s[i] == b[i];
    assert |a| > 8 ==> s[8] == a[8];
    assert |b| > 8 ==> s[8] == b[8];
  }

  lemma {:induction false} ParseFromIs(s: string, k: nat, j: nat)
    requires k <= j < |DOMAINS| && Stem(DOMAINS[j]) <= s && ParseRest(s[|Stem(DOMAINS[j])|..]).Some?
    ensures var (family, digits) := ParseRest(s[|Stem(DOMAINS[j])|..]).value;
            AllDigits(digits)
            && ParseFrom(s, k) == Some(Prebuilt(DOMAINS[j].0, DOMAINS[j].1, family, FromDec(digits)))
    decreases j - k
  {
    hide Stem, ParseRest, FromDec, AllDigits;
    DigitsAreDigits(s[|Stem(DOMAINS[j])|..]);
    if k < j {
      if Stem(DOMAINS[k]) <= s {
        StemsDiffer(s, j, k);
      }
      ParseFromIs(s, k + 1, j);
    }
  }

  lemma {:induction false} ParseFromFinds(s: string, k: nat) returns (j: nat)
    requires k <= |DOMAINS| && ParseFrom(s, k).Some?
    ensures k <= j < |DOMAINS| && Stem(DOMAINS[j]) <= s && ParseRest(s[|Stem(DOMAINS[j])|..]).Some?
    decreases |DOMAINS| - k
  {
    hide Stem, ParseRest, FromDec, AllDigits;
    if Stem(DOMAINS[k]) <= s && ParseRest(s[|Stem(DOMAINS[k])|..]).Some? {
      j := k;
    } else {
      j := ParseFromFinds(s, k + 1);
    }
  }

  lemma SpelledIsParsed(s: string, p: Prebuilt, digits: string, end: string)
    requires Spells(s, p, digits, end)
    ensures Parse(s) == Some(p)
  {
    var j :| 0 <= j < |DOMAINS| && DOMAINS[j] == (p.top, p.sub);
    var rest := p.family + (MARK + (digits + end));
    hide *;
    RestReadsBack(p.family, digits, end);
    ParseFromIs(s, 0, j);
  }

  /** A file name is recognised exactly when it spells a domain, a family and a version, and the
      parts read are the parts spelled. */
  lemma ParseIsExact(s: string, p: Prebuilt)
    ensures Parse(s) == Some(p) <==> exists digits, end :: Spells(s, p, digits, end)
  {
    hide ParseRest, ParseFrom, Stem, IsFamily, AllDigits, FromDec, IsEnd;
    if Parse(s) == Some(p) {
      var j := ParseFromFinds(s, 0);
      ParseFromIs(s, 0, j);
      var stem := Stem(DOMAINS[j]);
      RestIsSpelled(s[|stem|..]);
      var (family, digits) := ParseRest(s[|stem|..]).value;
      var end :| IsEnd(end) && s[|stem|..] == family + (MARK + (digits + end));
      assert s == stem + s[|stem|..];
      assert DOMAINS[j] in DOMAINS;
      assert Spells(s, p, digits, end);
    }
    if digits, end :| Spells(s, p, digits, end) {
      SpelledIsParsed(s, p, digits, end);
    }
  }

  // ---- The names written out ----

  /** The expression in full: which names are recognised, and as what. */
  lemma NamesAreSpelled(s: string, p: Prebuilt)
    ensures Parse(s) == Some(p) <==>
            && ((p.top == "android" && p.sub in ["hardware", "system", "media", "frameworks"])
                || (p.top == "vendor" && p.sub == "qti"))
            && p.family != ""
            && (forall i :: 0 <= i < |p.family| ==>
                  var c := p.family[i];
                  'a' <= c <= 'z' || 'A' <= c <= 'Z' || '0' <= c <= '9' || c == '_' || c == '.')
            && exists digits :: digits != "" && AllDigits(digits) && FromDec(digits) == p.version
                 && (s == p.top + "." + p.sub + "." + (p.family + ("-V" + (digits + "-ndk.so")))
                     || s == p.top + "." + p.sub + "." + (p.family + ("-V" + (digits + ("-ndk.so" + "\n")))))
  {
    ParseIsExact(s, p);
    DomainsAre(p.top, p.sub);
    hide FromDec, AllDigits, Parse;
    if digits, end :| Spells(s, p, digits, end) {
      assert end == "-ndk.so" || end == "-ndk.so" + "\n";
    }
    if digits :| digits != "" && AllDigits(digits) && FromDec(digits) == p.version
                 && s == p.top + "." + p.sub + "." + (p.family + ("-V" + (digits + "-ndk.so"))) {
      assert (p.top, p.sub) in DOMAINS && IsFamily(p.family) ==> Spells(s, p, digits, SUFFIX);
    }
    if digits :| digits != "" && AllDigits(digits) && FromDec(digits) == p.version
                 && s == p.top + "." + p.sub + "." + (p.family + ("-V" + (digits + ("-ndk.so" + "\n")))) {
      assert (p.top, p.sub) in DOMAINS && IsFamily(p.family) ==> Spells(s, p, digits, SUFFIX + "\n");
    }
  }

  lemma DomainsAre(top: string, sub: string)
    ensures (top, sub) in DOMAINS <==>
            (top == "android" && sub in ["hardware", "system", "media", "frameworks"])
            || (top == "vendor" && sub == "qti")
  {
    assert DOMAINS[0] == ("android", "hardware") && DOMAINS[1] == ("android", "system");
    assert DOMAINS[2] == ("android", "media") && DOMAINS[3] == ("android", "frameworks");
    assert DOMAINS[4] == ("vendor", "qti");
  }
}
