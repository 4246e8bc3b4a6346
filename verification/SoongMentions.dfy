/** Which printed declarations a lookup by name can end in, told from their fields: the strings and
    braces of a declaration in the order they are printed. */
module SoongMentions {
  import opened Text
  import opened SoongFiles
  import opened SoongScanner
  import opened SoongFields
  import opened SoongPrinter
  import opened CcScanner
  import opened CcFiles
  import opened SoongDecls

  /** A quoted string, which may stand behind a name key, or an opening brace with the name in front
      of it on its line. */
  datatype Mention = Says(value: string, named: bool) | Opens(name: string)

  /** The script looks for a key that ends like this. */
  predicate EndsInName(key: string) {
    |key| >= 4 && key[|key| - 4..] == "name"
  }

  function Said(values: seq<string>): seq<Mention> {
    if values == [] then [] else [Says(values[0], false)] + Said(values[1..])
  }

  function InfoMentions(info: Info): seq<Mention> {
    [Opens("")] + ([Says(Dec(info.version), false)] + Said(info.imports))
  }

  function InfosMentions(infos: seq<Info>): seq<Mention> {
    if infos == [] then [] else InfoMentions(infos[0]) + InfosMentions(infos[1..])
  }

  function FieldMentions(f: Field): seq<Mention>
    decreases f, 0
  {
    match f
    case Flag(_, _) => []
    case Str(key, value) => [Says(value, EndsInName(key))]
    case Strs(_, values) => Said(values)
    case Infos(_, infos) => InfosMentions(infos)
    case Group(name, fields) => [Opens(name)] + Mentions(fields)
  }

  function Mentions(fs: seq<Field>): seq<Mention>
    decreases fs, 1
  {
    if fs == [] then [] else FieldMentions(fs[0]) + Mentions(fs[1..])
  }

  /** The name is said where the brace last opened is named as wanted; wanted says whether the one
      before all of these is. A closed group still counts: the scan only looks for the nearest
      opening brace. */
  predicate Attracts(ms: seq<Mention>, name: string, filter: string, how: Scanner, wanted: bool) {
    ms != [] &&
    match ms[0]
    case Says(v, named) =>
      (wanted && v == name && (how.ByNameKey? ==> named)) || Attracts(ms[1..], name, filter, how, wanted)
    case Opens(n) => Attracts(ms[1..], name, filter, how, Contains(n, filter))
  }

  function WantedAfter(ms: seq<Mention>, filter: string, wanted: bool): bool {
    if ms == [] then wanted
    else WantedAfter(ms[1..], filter, if ms[0].Opens? then Contains(ms[0].name, filter) else wanted)
  }

  lemma {:induction false} MentionsConcat(a: seq<Mention>, b: seq<Mention>, name: string, filter: string, how: Scanner,
                                          wanted: bool)
    ensures Attracts(a + b, name, filter, how, wanted) <==>
            Attracts(a, name, filter, how, wanted) || Attracts(b, name, filter, how, WantedAfter(a, filter, wanted))
    ensures WantedAfter(a + b, filter, wanted) == WantedAfter(b, filter, WantedAfter(a, filter, wanted))
    decreases |a|
  {
    hide Contains;
    if a == [] {
      assert a + b == b;
    } else {
      assert (a + b)[1..] == a[1..] + b && (a + b)[0] == a[0];
      MentionsConcat(a[1..], b, name, filter, how, if a[0].Opens? then Contains(a[0].name, filter) else wanted);
    }
  }

  // ---- The same of a text ----

  predicate Under(s: string, i: nat, filter: string, wanted: bool)
    requires i <= |s|
  {
    var ob := OpenBrace(s, i);
    if ob < 0 then wanted else Contains(Declaration(s, ob), filter)
  }

  /** The text before i ends in a name key and white space. */
  predicate KeyBefore(s: string, i: nat)
    requires i <= |s|
  {
    EndsIn(RStrip(s[..i]), NAME_KEY)
  }

  predicate EndsIn(s: string, pat: string) {
    |pat| <= |s| && s[|s| - |pat|..] == pat
  }

  predicate Counts(s: string, i: nat, how: Scanner)
    requires i <= |s|
  {
    how.ByNameKey? ==> KeyBefore(s, i)
  }

  ghost predicate HitIn(s: string, name: string, filter: string, how: Scanner, wanted: bool) {
    exists i :: 0 <= i < |s| && OccursAt(s, Quoted(name), i) && Under(s, i, filter, wanted) && Counts(s, i, how)
  }

  /** The last quote is a closing one: a comma or a closing bracket follows it. */
  predicate Closed(s: string) {
    var q := RFindChar(s, '"', |s|);
    q >= 0 ==> q + 1 < |s| && (s[q + 1] == ',' || s[q + 1] == ']')
  }

  /** Every opening brace stands on a line that starts in s. */
  predicate Lined(s: string) {
    forall ob :: 0 <= ob < |s| && s[ob] == '{' ==> RFindChar(s, '\n', ob) >= 0
  }

  /** No key can begin or end at the ends of s. */
  predicate KeyFreeEnds(s: string) {
    var r := RStrip(s);
    (r != "" ==> r[|r| - 1] != ':') && (s != "" ==> !IsWord(s[0]) && s[0] != ':')
  }

  /** A name that cannot be mistaken for what stands between two strings. */
  predicate Searchable(name: string) {
    Free(name, '"') && Free(name, '{') && Free(name, '}') && (name == "" || (name[0] != ',' && name[0] != ']'))
  }

  lemma AlmostAllNamesAreSearchable(name: string)
    ensures Searchable(name) <==>
            && (forall i :: 0 <= i < |name| ==> name[i] !in "\"{}")
            && (name != "" ==> name[0] !in ",]")
  {
  }

  /** The text mentions ms and nothing else. */
  ghost predicate Shows(s: string, ms: seq<Mention>, name: string, filter: string, how: Scanner) {
    && Closed(s) && Lined(s) && KeyFreeEnds(s)
    && forall w: bool ::
         && (HitIn(s, name, filter, how, w) <==> Attracts(ms, name, filter, how, w))
         && (Under(s, |s|, filter, w) <==> WantedAfter(ms, filter, w))
  }

  lemma RFindInConcat(a: string, b: string, c: char, k: nat)
    requires k <= |b|
    ensures RFindChar(a + b, c, |a| + k) ==
            if RFindChar(b, c, k) >= 0 then |a| + RFindChar(b, c, k) else RFindChar(a, c, |a|)
  {
    var s, q, r, m := a + b, RFindChar(b, c, k), RFindChar(a, c, |a|), RFindChar(a + b, c, |a| + k);
    assert forall i :: 0 <= i < |a| ==> s[i] == a[i];
    assert forall i :: |a| <= i < |s| ==> s[i] == b[i - |a|];
    assert q >= 0 ==> s[|a| + q] == c;
    assert r >= 0 ==> s[r] == c;
    assert m >= |a| ==> b[m - |a|] == c && m - |a| <= q;
    assert 0 <= m < |a| ==> a[m] == c && m <= r;
  }

  lemma ClosedConcat(a: string, b: string)
    requires Closed(a) && Closed(b)
    ensures Closed(a + b)
  {
    var s, q, r := a + b, RFindChar(b, '"', |b|), RFindChar(a, '"', |a|);
    RFindInConcat(a, b, '"', |b|);
    assert q >= 0 ==> s[|a| + q + 1] == b[q + 1];
    assert r >= 0 ==> s[r + 1] == a[r + 1];
  }

  lemma LinedConcat(a: string, b: string)
    requires Lined(a) && Lined(b)
    ensures Lined(a + b)
  {
    var s := a + b;
    forall ob | 0 <= ob < |s| && s[ob] == '{'
      ensures RFindChar(s, '\n', ob) >= 0
    {
      if ob < |a| {
        DeclarationBefore(a, b, ob);
      } else {
        DeclarationBehind(a, b, ob - |a|);
      }
    }
  }

  lemma InsideIsNoQuote(s: string, name: string, i: nat, at: nat)
    requires OccursAt(s, Quoted(name), i) && Free(name, '"')
    ensures i < at <= i + |name| ==> at < |s| && s[at] != '"'
  {
    if i < at <= i + |name| {
      CharAt(s, Quoted(name), i, at - i);
    }
  }

  lemma StartsSearchable(s: string, name: string, i: nat)
    requires OccursAt(s, Quoted(name), i) && Searchable(name)
    ensures i + 1 < |s| && s[i] == '"' && s[i + 1] != ',' && s[i + 1] != ']'
  {
    CharAt(s, Quoted(name), i, 0);
    CharAt(s, Quoted(name), i, 1);
    assert Quoted(name)[1] == if name == "" then '"' else name[0];
  }

  /** A quoted name does not reach across the end of a closed text. */
  lemma NoStraddle(a: string, b: string, name: string, i: nat)
    requires Closed(a) && Searchable(name) && i < |a| && OccursAt(a + b, Quoted(name), i)
    ensures i + |Quoted(name)| <= |a|
  {
    var s, q := a + b, RFindChar(a, '"', |a|);
    StartsSearchable(s, name, i);
    assert forall k :: 0 <= k < |a| ==> s[k] == a[k];
    InsideIsNoQuote(s, name, i, q);
  }

  lemma UnderBefore(a: string, b: string, i: nat, filter: string, wanted: bool)
    requires Lined(a) && i <= |a|
    ensures Under(a + b, i, filter, wanted) <==> Under(a, i, filter, wanted)
  {
    hide Contains, Declaration;
    var ob := OpenBrace(a, i);
    assert forall k :: 0 <= k < i ==> (a + b)[k] == a[k];
    assert OpenBrace(a + b, i) == ob;
    if ob >= 0 {
      DeclarationBefore(a, b, ob);
    }
  }

  lemma UnderBehind(a: string, b: string, k: nat, filter: string, wanted: bool)
    requires Lined(a) && Lined(b) && k <= |b|
    ensures Under(a + b, |a| + k, filter, wanted) <==> Under(b, k, filter, Under(a, |a|, filter, wanted))
  {
    hide Contains, Declaration;
    RFindInConcat(a, b, '{', k);
    var ob := OpenBrace(b, k);
    if ob >= 0 {
      DeclarationBehind(a, b, ob);
    } else if OpenBrace(a, |a|) >= 0 {
      DeclarationBefore(a, b, OpenBrace(a, |a|));
    }
  }

  lemma {:induction false} RStripConcat(a: string, x: string)
    ensures RStrip(a + x) == if RStrip(x) == "" then RStrip(a) else a + RStrip(x)
  {
    hide IsSpace;
    if x == "" {
      assert a + x == a;
    } else {
      assert (a + x)[..|a + x| - 1] == a + x[..|x| - 1];
      RStripConcat(a, x[..|x| - 1]);
    }
  }

  lemma KeyFreeConcat(a: string, b: string)
    requires KeyFreeEnds(a) && KeyFreeEnds(b)
    ensures KeyFreeEnds(a + b)
  {
    hide IsWord;
    RStripConcat(a, b);
    if a == "" {
      assert a + b == b;
    }
  }

  lemma KeyBehind(a: string, b: string, k: nat)
    requires KeyFreeEnds(a) && KeyFreeEnds(b) && k <= |b|
    ensures KeyBefore(a + b, |a| + k) <==> KeyBefore(b, k)
  {
    var x := b[..k];
    assert (a + b)[..|a| + k] == a + x;
    RStripConcat(a, x);
    var r := RStrip(x);
    KeyEndsInColon(RStrip(a));
    if r != "" {
      assert r[0] == x[0] == b[0];
      KeyIsWithin(a, r);
    }
  }

  lemma KeyEndsInColon(s: string)
    ensures EndsIn(s, NAME_KEY) ==> s != "" && s[|s| - 1] == ':'
  {
    if EndsIn(s, NAME_KEY) {
      assert s[|s| - |NAME_KEY|..][|NAME_KEY| - 1] == ':';
    }
  }

  lemma KeyIsWithin(a: string, r: string)
    requires r != "" && !IsWord(r[0]) && r[0] != ':'
    ensures EndsIn(a + r, NAME_KEY) <==> EndsIn(r, NAME_KEY)
  {
    var s, n := a + r, |NAME_KEY|;
    assert forall k :: 0 <= k < n ==> IsWord(NAME_KEY[k]) || NAME_KEY[k] == ':';
    if |r| >= n {
      assert s[|s| - n..] == r[|r| - n..];
    } else {
      assert |s| >= n ==> s[|s| - n..][n - |r|] == r[0];
    }
  }

  lemma CountsBefore(a: string, b: string, i: nat, how: Scanner)
    requires i <= |a|
    ensures Counts(a + b, i, how) <==> Counts(a, i, how)
  {
    assert (a + b)[..i] == a[..i];
  }

  lemma HitInConcat(a: string, b: string, name: string, filter: string, how: Scanner, w: bool)
    requires Closed(a) && Lined(a) && Lined(b) && KeyFreeEnds(a) && KeyFreeEnds(b) && Searchable(name)
    ensures HitIn(a + b, name, filter, how, w) <==>
            HitIn(a, name, filter, how, w) || HitIn(b, name, filter, how, Under(a, |a|, filter, w))
  {
    hide Under, Closed, Lined, Searchable, OccursAt, KeyFreeEnds, KeyBefore;
    var s, pat, mid := a + b, Quoted(name), Under(a, |a|, filter, w);
    forall i | 0 <= i < |s| && OccursAt(s, pat, i) && Under(s, i, filter, w) && Counts(s, i, how)
      ensures HitIn(a, name, filter, how, w) || HitIn(b, name, filter, how, mid)
    {
      if i < |a| {
        NoStraddle(a, b, name, i);
        OccursBefore(a, b, pat, i);
        UnderBefore(a, b, i, filter, w);
        CountsBefore(a, b, i, how);
      } else {
        OccursShift(a, b, pat, i - |a|);
        UnderBehind(a, b, i - |a|, filter, w);
        KeyBehind(a, b, i - |a|);
      }
    }
    forall i | 0 <= i < |a| && OccursAt(a, pat, i) && Under(a, i, filter, w) && Counts(a, i, how)
      ensures HitIn(s, name, filter, how, w)
    {
      OccursBefore(a, b, pat, i);
      UnderBefore(a, b, i, filter, w);
      CountsBefore(a, b, i, how);
    }
    forall i | 0 <= i < |b| && OccursAt(b, pat, i) && Under(b, i, filter, mid) && Counts(b, i, how)
      ensures HitIn(s, name, filter, how, w)
    {
      OccursShift(a, b, pat, i);
      UnderBehind(a, b, i, filter, w);
      KeyBehind(a, b, i);
    }
  }

  lemma OccursBefore(a: string, b: string, pat: string, i: nat)
    ensures i + |pat| <= |a| ==> (OccursAt(a + b, pat, i) <==> OccursAt(a, pat, i))
    ensures OccursAt(a, pat, i) ==> i + |pat| <= |a|
  {
    if i + |pat| <= |a| {
      assert (a + b)[i..i + |pat|] == a[i..i + |pat|];
    }
  }

  lemma ShowsConcat(a: string, b: string, ms: seq<Mention>, ns: seq<Mention>, name: string, filter: string,
                    how: Scanner)
    requires Shows(a, ms, name, filter, how) && Shows(b, ns, name, filter, how) && Searchable(name)
    ensures Shows(a + b, ms + ns, name, filter, how)
  {
    hide Under, HitIn, Closed, Lined, KeyFreeEnds, Searchable, Attracts, WantedAfter;
    ClosedConcat(a, b);
    LinedConcat(a, b);
    KeyFreeConcat(a, b);
    assert |a + b| == |a| + |b|;
    forall w: bool
      ensures HitIn(a + b, name, filter, how, w) <==> Attracts(ms + ns, name, filter, how, w)
      ensures Under(a + b, |a + b|, filter, w) <==> WantedAfter(ms + ns, filter, w)
    {
      HitInConcat(a, b, name, filter, how, w);
      UnderBehind(a, b, |b|, filter, w);
      MentionsConcat(ms, ns, name, filter, how, w);
    }
  }

  // ---- Pieces of printed text ----

  lemma FlatShows(s: string, name: string, filter: string, how: Scanner)
    requires Free(s, '"') && Free(s, '{') && KeyFreeEnds(s)
    ensures Shows(s, [], name, filter, how)
  {
    hide Contains, Declaration, KeyFreeEnds, KeyBefore;
    forall i | 0 <= i < |s|
      ensures !OccursAt(s, Quoted(name), i)
    {
      if OccursAt(s, Quoted(name), i) {
        CharAt(s, Quoted(name), i, 0);
      }
    }
  }

  /** A string in a list. */
  lemma QuotedShows(v: string, c: char, name: string, filter: string, how: Scanner)
    requires Free(v, '"') && Free(v, '{') && (c == ',' || c == ']') && Searchable(name)
    ensures Shows(Quoted(v) + [c], [Says(v, false)], name, filter, how)
  {
    hide *;
    NoLeadIsFlat();
    LeadQuotedShows("", v, c, false, name, filter, how);
    assert "" + Quoted(v) + [c] == Quoted(v) + [c];
  }

  lemma NoLeadIsFlat()
    ensures Free("", '"') && Free("", '{') && RStrip("") == "" && !EndsIn("", NAME_KEY)
  {
  }

  /** A string behind text that may end in a key. */
  lemma LeadQuotedShows(lead: string, v: string, c: char, named: bool, name: string, filter: string, how: Scanner)
    requires Free(lead, '"') && Free(lead, '{') && (lead != "" ==> !IsWord(lead[0]) && lead[0] != ':')
    requires named <==> EndsIn(RStrip(lead), NAME_KEY)
    requires Free(v, '"') && Free(v, '{') && (c == ',' || c == ']') && Searchable(name)
    ensures Shows(lead + Quoted(v) + [c], [Says(v, named)], name, filter, how)
  {
    hide *;
    var s := lead + Quoted(v) + [c];
    LeadQuotedCloses(lead, v, c);
    forall i | 0 <= i < |s|
      ensures OccursAt(s, Quoted(name), i) <==> i == |lead| && v == name
    {
      OnlyBehindLead(lead, v, c, name, i);
    }
    OneSaid(v, named, name, filter, how);
    OneHit(s, |lead|, v == name, named, name, filter, how);
    ShowsOne(s, v, named, name, filter, how);
  }

  lemma OneHit(s: string, at: nat, there: bool, named: bool, name: string, filter: string, how: Scanner)
    requires at < |s| && (forall k :: 0 <= k < |s| ==> s[k] != '{') && (named <==> KeyBefore(s, at))
    requires forall i :: 0 <= i < |s| ==> (OccursAt(s, Quoted(name), i) <==> i == at && there)
    ensures forall w: bool :: HitIn(s, name, filter, how, w) <==> w && there && (how.ByNameKey? ==> named)
    ensures forall w: bool :: Under(s, |s|, filter, w) == w
  {
    hide OccursAt, Contains, Declaration, KeyBefore;
    assert forall i :: 0 <= i <= |s| ==> OpenBrace(s, i) == -1;
    assert forall w: bool :: Under(s, at, filter, w) == w;
    assert OccursAt(s, Quoted(name), at) <==> there;
  }

  lemma ShowsOne(s: string, v: string, named: bool, name: string, filter: string, how: Scanner)
    requires Closed(s) && Lined(s) && KeyFreeEnds(s)
    requires forall w: bool :: HitIn(s, name, filter, how, w) <==> w && v == name && (how.ByNameKey? ==> named)
    requires forall w: bool :: Under(s, |s|, filter, w) == w
    requires forall w: bool :: (Attracts([Says(v, named)], name, filter, how, w) <==>
                                w && v == name && (how.ByNameKey? ==> named))
                               && WantedAfter([Says(v, named)], filter, w) == w
    ensures Shows(s, [Says(v, named)], name, filter, how)
  {
    hide Closed, Lined, KeyFreeEnds, HitIn, Under, Attracts, WantedAfter;
  }

  lemma OneSaid(v: string, named: bool, name: string, filter: string, how: Scanner)
    ensures forall w: bool :: (Attracts([Says(v, named)], name, filter, how, w) <==>
                               w && v == name && (how.ByNameKey? ==> named))
                              && WantedAfter([Says(v, named)], filter, w) == w
  {
    forall w: bool
      ensures Attracts([Says(v, named)], name, filter, how, w) <==> w && v == name && (how.ByNameKey? ==> named)
      ensures WantedAfter([Says(v, named)], filter, w) == w
    {
      assert [Says(v, named)][1..] == [];
      assert !Attracts([], name, filter, how, w) && WantedAfter([], filter, w) == w;
    }
  }

  lemma LeadQuotedCloses(lead: string, v: string, c: char)
    requires Free(lead, '"') && Free(lead, '{') && (lead != "" ==> !IsWord(lead[0]) && lead[0] != ':')
    requires Free(v, '"') && Free(v, '{') && (c == ',' || c == ']')
    ensures var s := lead + Quoted(v) + [c];
            && Closed(s) && Lined(s) && KeyFreeEnds(s) && |lead| < |s|
            && (forall k :: 0 <= k < |s| ==> s[k] != '{')
            && (KeyBefore(s, |lead|) <==> EndsIn(RStrip(lead), NAME_KEY))
  {
    var s, t := lead + Quoted(v) + [c], Quoted(v) + [c];
    assert s == lead + t;
    hide *;
    QuotedCloses(v, c);
    LeadIsClosed(lead);
    ClosedConcat(lead, t);
    BothBraceFree(lead, t);
    NoBraceIsLined(s);
    LeadEnds(lead, v, c);
  }

  lemma BothBraceFree(a: string, b: string)
    requires Free(a, '{') && forall k :: 0 <= k < |b| ==> b[k] != '{'
    ensures forall k :: 0 <= k < |a + b| ==> (a + b)[k] != '{'
  {
  }

  lemma LeadEnds(lead: string, v: string, c: char)
    requires (c == ',' || c == ']') && (lead != "" ==> !IsWord(lead[0]) && lead[0] != ':')
    ensures var s := lead + Quoted(v) + [c];
            && KeyFreeEnds(s) && |lead| < |s| && (KeyBefore(s, |lead|) <==> EndsIn(RStrip(lead), NAME_KEY))
  {
    var s := lead + Quoted(v) + [c];
    assert s[..|lead|] == lead && s[|s| - 1] == c && s[0] == if lead == "" then '"' else lead[0];
    assert !IsSpace(c);
    hide RStrip, IsSpace, IsWord;
    assert !IsWord('"') by { QuoteIsNoWord(); }
    EndsPlainly(s);
  }

  lemma QuoteIsNoWord()
    ensures !IsWord('"')
  {
  }

  lemma LeadIsClosed(lead: string)
    requires Free(lead, '"')
    ensures Closed(lead)
  {
  }

  lemma NoBraceIsLined(s: string)
    requires forall k :: 0 <= k < |s| ==> s[k] != '{'
    ensures Lined(s)
  {
  }

  lemma OnlyBehindLead(lead: string, v: string, c: char, name: string, i: nat)
    requires Free(lead, '"') && Free(v, '"') && (c == ',' || c == ']') && Searchable(name)
    requires i < |lead + Quoted(v) + [c]|
    ensures OccursAt(lead + Quoted(v) + [c], Quoted(name), i) <==> i == |lead| && v == name
  {
    var t := Quoted(v) + [c];
    assert lead + Quoted(v) + [c] == lead + t && |t| == |v| + 3;
    if i >= |lead| {
      OccursShift(lead, t, Quoted(name), i - |lead|);
      OnlyItself(v, c, name, i - |lead|);
    } else {
      assert (lead + t)[i] == lead[i] != '"';
      QuoteFirst(lead + t, name, i);
    }
  }

  lemma QuoteFirst(s: string, name: string, i: nat)
    requires i < |s| && s[i] != '"'
    ensures !OccursAt(s, Quoted(name), i)
  {
    if OccursAt(s, Quoted(name), i) {
      CharAt(s, Quoted(name), i, 0);
    }
  }

  lemma QuotedCloses(v: string, c: char)
    requires Free(v, '"') && Free(v, '{') && (c == ',' || c == ']')
    ensures var s := Quoted(v) + [c]; Closed(s) && Lined(s) && forall k :: 0 <= k < |s| ==> s[k] != '{'
  {
    var s := Quoted(v) + [c];
    assert s[|v| + 1] == '"' && s[|v| + 2] == c;
    assert RFindChar(s, '"', |s|) == |v| + 1;
  }

  lemma OnlyItself(v: string, c: char, name: string, i: nat)
    requires Free(v, '"') && (c == ',' || c == ']') && Searchable(name) && i < |v| + 3
    ensures OccursAt(Quoted(v) + [c], Quoted(name), i) <==> i == 0 && v == name
  {
    var s, pat := Quoted(v) + [c], Quoted(name);
    assert v == name ==> s[0..|pat|] == pat;
    if OccursAt(s, pat, i) {
      StartsSearchable(s, name, i);
      assert s[|v| + 2] == c && forall k :: 0 < k <= |v| ==> s[k] == v[k - 1];
      assert i == 0;
      QuoteEnds(v, c, name);
    }
  }

  lemma QuoteEnds(v: string, c: char, name: string)
    requires Free(v, '"') && OccursAt(Quoted(v) + [c], Quoted(name), 0) && c != '"'
    ensures v == name
  {
    var s, pat := Quoted(v) + [c], Quoted(name);
    CharAt(s, pat, 0, |name| + 1);
    assert s[|v| + 2] == c && forall k :: 0 < k <= |v| ==> s[k] == v[k - 1];
    assert |name| == |v|;
    SliceAt(s, pat, 0, 1, 1 + |name|);
    assert s[1..1 + |v|] == v && pat[1..1 + |name|] == name;
  }

  lemma EndsPlainly(s: string)
    requires s != "" && !IsWord(s[0]) && s[0] != ':' && !IsSpace(s[|s| - 1]) && s[|s| - 1] != ':'
    ensures KeyFreeEnds(s)
  {
    hide IsSpace, IsWord;
  }

  lemma ShortTexts()
    ensures KeyFreeEnds("]") && KeyFreeEnds(" ") && KeyFreeEnds(",") && KeyFreeEnds("\n") && KeyFreeEnds("")
    ensures forall s :: s == "]" || s == " " || s == "," || s == "\n" || s == "" ==> Free(s, '"') && Free(s, '{')
  {
    assert RStrip("") == "" && RStrip(" ") == "" && RStrip("\n") == "";
  }

  lemma {:induction false} StringsShow(values: seq<string>, name: string, filter: string, how: Scanner)
    requires PlainStrings(values) && Searchable(name)
    ensures Shows(PrintStrings(values) + "]", Said(values), name, filter, how)
  {
    ShortTexts();
    hide Shows, Searchable, PlainString, KeyFreeEnds;
    if values == [] {
      FlatShows("]", name, filter, how);
      assert PrintStrings(values) + "]" == "]";
    } else {
      PlainIsQuoteFree(values);
      if |values| == 1 {
        QuotedShows(values[0], ']', name, filter, how);
        assert Said(values) == [Says(values[0], false)] by { assert values[1..] == []; }
      } else {
        var rest := PrintStrings(values[1..]) + "]";
        QuotedShows(values[0], ',', name, filter, how);
        FlatShows(" ", name, filter, how);
        StringsShow(values[1..], name, filter, how);
        ShowsConcat(" ", rest, [], Said(values[1..]), name, filter, how);
        ShowsConcat(Quoted(values[0]) + [','], " " + rest, [Says(values[0], false)], [] + Said(values[1..]),
                    name, filter, how);
        assert PrintStrings(values) + "]" == Quoted(values[0]) + [','] + (" " + rest);
        assert [] + Said(values[1..]) == Said(values[1..]);
      }
    }
  }

  lemma PlainIsQuoteFree(values: seq<string>)
    requires PlainStrings(values) && values != []
    ensures Free(values[0], '"') && Free(values[0], '{') && PlainStrings(values[1..])
  {
    assert PlainString(values[0]);
    hide LooksLikeFlag;
  }

  /** An opened line mentions the name in front of its brace. */
  lemma OpenLineShows(line: string, n: string, name: string, filter: string, how: Scanner)
    requires Free(line, '"') && Free(line, '{') && Free(line, '\n')
    requires Contains(Strip(line), filter) <==> Contains(n, filter)
    ensures Shows("\n" + line + "{", [Opens(n)], name, filter, how)
  {
    var s, ob := "\n" + line + "{", |line| + 1;
    OpenedLine(line);
    NoQuoteNoHit(s, name);
    OneOpened(n, name, filter, how);
    assert KeyFreeEnds(s) by { EndsPlainly(s); }
    hide Contains, Declaration, Strip, OccursAt, Free, Closed, Attracts, WantedAfter, KeyFreeEnds, KeyBefore;
    assert OpenBrace(s, |s|) == ob;
  }

  lemma OpenedLine(line: string)
    requires Free(line, '"') && Free(line, '{') && Free(line, '\n')
    ensures var s, ob := "\n" + line + "{", |line| + 1;
            Free(s, '"') && Lined(s) && |s| == ob + 1 && s[ob] == '{' && Declaration(s, ob) == Strip(line)
  {
    hide Strip, Declaration;
    DeclaredOnLine(line);
  }

  lemma OneOpened(n: string, name: string, filter: string, how: Scanner)
    ensures forall w: bool :: !Attracts([Opens(n)], name, filter, how, w)
                              && WantedAfter([Opens(n)], filter, w) == Contains(n, filter)
  {
    hide Contains;
    assert [Opens(n)][1..] == [];
  }

  lemma NoQuoteNoHit(s: string, name: string)
    requires Free(s, '"')
    ensures Closed(s) && forall i :: 0 <= i < |s| ==> !OccursAt(s, Quoted(name), i)
  {
    forall i | 0 <= i < |s|
      ensures !OccursAt(s, Quoted(name), i)
    {
      if OccursAt(s, Quoted(name), i) {
        CharAt(s, Quoted(name), i, 0);
      }
    }
  }

  lemma {:induction false} StripIndent(indent: string, rest: string)
    requires AllSpaces(indent) && (rest == "" || !IsSpace(rest[0]))
    ensures LStrip(indent + rest) == rest
  {
    assert IsSpace(' ');
    hide IsSpace;
    if indent == "" {
      assert indent + rest == rest;
    } else {
      assert (indent + rest)[1..] == indent[1..] + rest;
      StripIndent(indent[1..], rest);
    }
  }

  /** What is declared before the brace of a group is its name and a colon. */
  lemma GroupDeclaration(indent: string, name: string)
    requires AllSpaces(indent) && IsKey(name)
    ensures Strip(indent + (name + ": ")) == name + ":"
  {
    var rest := name + ": ";
    WordIsNotSpace(name[0]);
    assert !IsSpace(rest[0]) && IsSpace(' ') && !IsSpace(':');
    hide IsSpace, IsKey;
    StripIndent(indent, rest);
    assert rest[..|rest| - 1] == name + ":" && rest[|rest| - 1] == ' ';
    assert RStrip(rest) == RStrip(name + ":") == name + ":";
  }

  lemma ColonIsNoPart(name: string, filter: string)
    requires IsKey(filter)
    ensures Contains(name + ":", filter) <==> Contains(name, filter)
  {
    var s := name + ":";
    if Contains(s, filter) {
      var i := Find(s, filter, 0);
      CharAt(s, filter, i, |filter| - 1);
      OccursBefore(name, ":", filter, i);
      OccurrenceIsContained(name, filter, i);
    }
    if Contains(name, filter) {
      var i := Find(name, filter, 0);
      OccursBefore(name, ":", filter, i);
      OccurrenceIsContained(s, filter, i);
    }
  }

  lemma GroupLineShows(indent: string, n: string, name: string, filter: string, how: Scanner)
    requires AllSpaces(indent) && IsKey(n) && IsKey(filter)
    ensures Shows("\n" + indent + (n + ": ") + "{", [Opens(n)], name, filter, how)
  {
    var line := indent + (n + ": ");
    assert Free(line, '"') && Free(line, '{') && Free(line, '\n');
    hide *;
    GroupDeclaration(indent, n);
    ColonIsNoPart(n, filter);
    OpenLineShows(line, n, name, filter, how);
    assert "\n" + indent + (n + ": ") + "{" == "\n" + line + "{";
  }

  lemma InfoLineShows(indent: string, name: string, filter: string, how: Scanner)
    requires AllSpaces(indent)
    ensures Shows("\n" + indent + "{", [Opens("")], name, filter, how)
  {
    assert Free(indent, '"') && Free(indent, '{') && Free(indent, '\n');
    hide *;
    StripIndent(indent, "");
    assert indent + "" == indent;
    NothingStripped(indent);
    OpenLineShows(indent, "", name, filter, how);
  }

  lemma NothingStripped(s: string)
    requires LStrip(s) == ""
    ensures Strip(s) == ""
  {
  }

  // ---- Printed fields ----

  lemma LeadIsFlat(indent: string, n: string, name: string, filter: string, how: Scanner)
    requires AllSpaces(indent) && IsKey(n)
    ensures Shows("\n" + indent + n + ": " + "[", [], name, filter, how)
    ensures Shows("\n" + indent + "]" + ",", [], name, filter, how)
    ensures Shows("\n" + indent + "},", [], name, filter, how)
  {
    var lead := "\n" + indent + n + ": " + "[";
    assert Free(lead, '"') && Free(lead, '{');
    assert Free("\n" + indent + "]" + ",", '"') && Free("\n" + indent + "]" + ",", '{');
    assert Free("\n" + indent + "},", '"') && Free("\n" + indent + "},", '{');
    EndsPlainly(lead);
    EndsPlainly("\n" + indent + "]" + ",");
    EndsPlainly("\n" + indent + "},");
    hide Shows, Free, KeyFreeEnds;
    FlatShows(lead, name, filter, how);
    FlatShows("\n" + indent + "]" + ",", name, filter, how);
    FlatShows("\n" + indent + "},", name, filter, how);
  }

  lemma FlagLineShows(lead: string, on: bool, name: string, filter: string, how: Scanner)
    requires Free(lead, '"') && Free(lead, '{') && lead != "" && !IsWord(lead[0]) && lead[0] != ':'
    ensures Shows(lead + (if on then "true," else "false,"), [], name, filter, how)
  {
    var s := lead + (if on then "true," else "false,");
    assert Free(s, '"') && Free(s, '{') && s[|s| - 1] == ',' && s[0] == lead[0];
    EndsPlainly(s);
    hide Free, KeyFreeEnds;
    FlatShows(s, name, filter, how);
  }

  /** The key in front of a value ends in a name key exactly when its name ends in name. */
  lemma LeadKey(indent: string, key: string)
    requires AllSpaces(indent) && IsKey(key)
    ensures var lead := "\n" + indent + key + ": ";
            && Free(lead, '"') && Free(lead, '{') && !IsWord(lead[0]) && lead[0] != ':'
            && (EndsIn(RStrip(lead), NAME_KEY) <==> EndsInName(key))
  {
    var lead, r := "\n" + indent + key + ": ", "\n" + indent + key + ":";
    assert lead[..|lead| - 1] == r && IsSpace(' ') && !IsSpace(':');
    assert RStrip(lead) == RStrip(r) == r;
    assert lead[0] == '\n' && !IsWord('\n') && !IsWord(' ');
    hide IsSpace, IsWord;
    KeyEnding("\n" + indent, key);
  }

  lemma KeyEnding(before: string, key: string)
    requires before != "" && !IsWord(before[|before| - 1])
    ensures EndsIn(before + key + ":", NAME_KEY) <==> EndsInName(key)
  {
    var s := before + key + ":";
    NameKeyIs();
    if |key| >= 4 {
      assert s[|s| - 5..] == key[|key| - 4..] + ":";
      NameWithColon(key[|key| - 4..]);
    } else {
      assert |s| >= 5 ==> s[|s| - 5..][3 - |key|] == before[|before| - 1];
    }
  }

  lemma NameKeyIs()
    ensures |NAME_KEY| == 5 && forall k :: 0 <= k < 4 ==> IsWord(NAME_KEY[k])
  {
  }

  lemma NameWithColon(x: string)
    requires |x| == 4
    ensures x + ":" == NAME_KEY <==> x == "name"
  {
    assert NAME_KEY == "name" + ":";
    assert (x + ":")[..4] == x && ("name" + ":")[..4] == "name";
  }

  lemma NoMention(ms: seq<Mention>)
    ensures [] + ms == ms && ms + [] == ms
  {
  }

  lemma LeafLineShows(f: Field, indent: string, name: string, filter: string, how: Scanner)
    requires AllSpaces(indent) && IsLeaf(f) && PlainField(f) && Searchable(name)
    ensures Shows(Line(indent, f.name, PrintValue(f, indent)), FieldMentions(f), name, filter, how)
  {
    LeafIs(f, indent);
    hide *;
    var lead := "\n" + indent + f.name + ": ";
    LeadKey(indent, f.name);
    if f.Flag? {
      FlagLineShows(lead, f.on, name, filter, how);
    } else if f.Str? {
      LeadQuotedShows(lead, f.value, ',', EndsInName(f.name), name, filter, how);
    } else {
      LeadIsFlat(indent, f.name, name, filter, how);
      ListShows(lead, f.values, name, filter, how);
    }
  }

  lemma ListShows(lead: string, values: seq<string>, name: string, filter: string, how: Scanner)
    requires Shows(lead + "[", [], name, filter, how) && PlainStrings(values) && Searchable(name)
    ensures Shows(lead + "[" + (PrintStrings(values) + "]") + ",", Said(values), name, filter, how)
  {
    hide *;
    var p := PrintStrings(values) + "]";
    StringsShow(values, name, filter, how);
    ShortTexts();
    FlatShows(",", name, filter, how);
    ShowsConcat(lead + "[", p, [], Said(values), name, filter, how);
    ShowsConcat(lead + "[" + p, ",", [] + Said(values), [], name, filter, how);
    NoMention(Said(values));
  }

  lemma LeafIs(f: Field, indent: string)
    requires IsLeaf(f) && PlainField(f)
    ensures var lead, line := "\n" + indent + f.name + ": ", Line(indent, f.name, PrintValue(f, indent));
            match f
            case Flag(_, on) =>
              line == lead + (if on then "true," else "false,") && FieldMentions(f) == [] && lead != ""
            case Str(key, value) =>
              && line == lead + Quoted(value) + [','] && FieldMentions(f) == [Says(value, EndsInName(key))]
              && Free(value, '"') && Free(value, '{')
            case Strs(_, values) =>
              && line == lead + "[" + (PrintStrings(values) + "]") + "," && FieldMentions(f) == Said(values)
              && PlainStrings(values)
            case _ => true
    ensures IsKey(f.name) && (f.Flag? || f.Str? || f.Strs?)
  {
    hide PrintStrings, Said, LooksLikeFlag, EndsInName, Quoted;
  }

  lemma InfoShows(info: Info, indent: string, name: string, filter: string, how: Scanner)
    requires AllSpaces(indent) && PlainStrings(info.imports) && Searchable(name)
    ensures Shows(PrintInfo(info, indent), InfoMentions(info), name, filter, how)
  {
    hide *;
    var f, ind := InfoFields(info), indent + "    ";
    InfoFieldsArePlain(info, indent);
    var l0, l1 := Line(ind, f[0].name, PrintValue(f[0], ind)), Line(ind, f[1].name, PrintValue(f[1], ind));
    InfoLineShows(indent, name, filter, how);
    LeafLineShows(f[0], ind, name, filter, how);
    LeafLineShows(f[1], ind, name, filter, how);
    VersionIsKey();
    LeadIsFlat(indent, "version", name, filter, how);
    ShowsConcat(l0, l1, FieldMentions(f[0]), FieldMentions(f[1]), name, filter, how);
    ShowsConcat("\n" + indent + "{", l0 + l1, [Opens("")], FieldMentions(f[0]) + FieldMentions(f[1]),
                name, filter, how);
    ShowsConcat("\n" + indent + "{" + (l0 + l1), "\n" + indent + "},",
                [Opens("")] + (FieldMentions(f[0]) + FieldMentions(f[1])), [], name, filter, how);
    InfoIsLines(info, indent);
    NoMention([Opens("")] + (FieldMentions(f[0]) + FieldMentions(f[1])));
  }

  lemma VersionIsKey()
    ensures IsKey("version")
  {
  }

  lemma InfoIsLines(info: Info, indent: string)
    ensures var f, ind := InfoFields(info), indent + "    ";
            && PrintInfo(info, indent) ==
               "\n" + indent + "{" + (Line(ind, f[0].name, PrintValue(f[0], ind))
                                      + Line(ind, f[1].name, PrintValue(f[1], ind))) + ("\n" + indent + "},")
            && InfoMentions(info) == [Opens("")] + (FieldMentions(f[0]) + FieldMentions(f[1]))
  {
    hide Line, PrintStrings, Quoted, Dec, Said;
  }

  lemma {:induction false} InfosShow(infos: seq<Info>, indent: string, name: string, filter: string, how: Scanner)
    requires AllSpaces(indent) && PlainInfos(infos) && Searchable(name)
    ensures Shows(PrintInfos(infos, indent), InfosMentions(infos), name, filter, how)
  {
    hide *;
    FirstInfoMentions(infos);
    if infos == [] {
      NothingPrinted(indent);
      ShortTexts();
      FlatShows("", name, filter, how);
    } else {
      FirstInfo(infos, indent);
      InfoShows(infos[0], indent, name, filter, how);
      InfosShow(infos[1..], indent, name, filter, how);
      ShowsConcat(PrintInfo(infos[0], indent), PrintInfos(infos[1..], indent),
                  InfoMentions(infos[0]), InfosMentions(infos[1..]), name, filter, how);
    }
  }

  lemma FirstInfoMentions(infos: seq<Info>)
    ensures InfosMentions(infos) == if infos == [] then [] else InfoMentions(infos[0]) + InfosMentions(infos[1..])
  {
    hide InfoMentions;
  }

  lemma {:induction false} LineShows(f: Field, indent: string, name: string, filter: string, how: Scanner)
    requires AllSpaces(indent) && PlainField(f) && Searchable(name) && IsKey(filter)
    ensures Shows(Line(indent, f.name, PrintValue(f, indent)), FieldMentions(f), name, filter, how)
    decreases f, 0
  {
    hide *;
    NestedFields(f, indent);
    NameIsKey(f);
    LeadIsFlat(indent, f.name, name, filter, how);
    if IsLeaf(f) {
      LeafLineShows(f, indent, name, filter, how);
    } else if f.Infos? {
      var lead, p := "\n" + indent + f.name + ": " + "[", PrintInfos(f.infos, indent + "    ");
      InfosShow(f.infos, indent + "    ", name, filter, how);
      ShowsConcat(lead, p, [], InfosMentions(f.infos), name, filter, how);
      ShowsConcat(lead + p, "\n" + indent + "]" + ",", [] + InfosMentions(f.infos), [], name, filter, how);
      NoMention(InfosMentions(f.infos));
      InfosLineIs(f, indent);
      InfosFieldMentions(f);
    } else {
      var lead, p := "\n" + indent + (f.name + ": ") + "{", PrintFields(f.fields, indent + "    ");
      GroupLineShows(indent, f.name, name, filter, how);
      FieldsShow(f.fields, indent + "    ", name, filter, how);
      ShowsConcat(lead, p, [Opens(f.name)], Mentions(f.fields), name, filter, how);
      ShowsConcat(lead + p, "\n" + indent + "},", [Opens(f.name)] + Mentions(f.fields), [], name, filter, how);
      NoMention([Opens(f.name)] + Mentions(f.fields));
      LineOpens(f, indent);
      GroupMentions(f);
    }
  }

  lemma InfosFieldMentions(f: Field)
    requires f.Infos?
    ensures FieldMentions(f) == InfosMentions(f.infos)
  {
  }

  lemma GroupMentions(f: Field)
    requires f.Group?
    ensures FieldMentions(f) == [Opens(f.name)] + Mentions(f.fields)
  {
  }

  /** Printed fields mention exactly what their data do, in this order. */
  lemma {:induction false} FieldsShow(fs: seq<Field>, indent: string, name: string, filter: string, how: Scanner)
    requires AllSpaces(indent) && PlainFields(fs) && Searchable(name) && IsKey(filter)
    ensures Shows(PrintFields(fs, indent), Mentions(fs), name, filter, how)
    decreases fs, 1
  {
    hide *;
    FirstMentions(fs);
    if fs == [] {
      NothingPrinted(indent);
      ShortTexts();
      FlatShows("", name, filter, how);
    } else {
      FirstField(fs, indent);
      LineShows(fs[0], indent, name, filter, how);
      FieldsShow(fs[1..], indent, name, filter, how);
      ShowsConcat(Line(indent, fs[0].name, PrintValue(fs[0], indent)), PrintFields(fs[1..], indent),
                  FieldMentions(fs[0]), Mentions(fs[1..]), name, filter, how);
    }
  }

  lemma FirstMentions(fs: seq<Field>)
    ensures Mentions(fs) == if fs == [] then [] else FieldMentions(fs[0]) + Mentions(fs[1..])
  {
    hide FieldMentions;
  }

  /** Exactly when a lookup can end in a printed declaration: the name is one of its strings, for the
      library script one behind a key that ends in name, and the nearest brace before that string
      is declared as wanted. */
  lemma ClearIffAttracts(d: Decl, name: string, filter: string, how: Scanner)
    requires PlainDecl(d) && Searchable(name) && IsKey(filter)
    ensures Clear(ToBlock(d), name, filter, how) <==>
            !Attracts(Mentions(FieldsOf(d)), name, filter, how, Contains(d.kind, filter))
  {
    hide *;
    PlainDeclIsWellFormed(d);
    FieldsShow(FieldsOf(d), INDENT, name, filter, how);
    ShortTexts();
    FlatShows("\n", name, filter, how);
    ShowsConcat(PrintFields(FieldsOf(d), INDENT), "\n", Mentions(FieldsOf(d)), [], name, filter, how);
    NoMention(Mentions(FieldsOf(d)));
    BodyIs(d);
    ShowsHit(ToBlock(d), Mentions(FieldsOf(d)), name, filter, how);
  }

  lemma ShowsHit(b: Block, ms: seq<Mention>, name: string, filter: string, how: Scanner)
    requires Shows(b.body, ms, name, filter, how)
    ensures Clear(b, name, filter, how) <==> !Attracts(ms, name, filter, how, Contains(b.kind, filter))
  {
    hide Contains, Declaration, OccursAt, Attracts, WantedAfter, Closed, Lined, KeyFreeEnds, KeyBefore, NameFieldAt;
    var w := Contains(b.kind, filter);
    assert HitIn(b.body, name, filter, how, w) <==> Attracts(ms, name, filter, how, w);
    if how.ByQuote? {
      forall i | 0 <= i < |b.body|
        ensures HitAt(b, name, filter, i) <==> OccursAt(b.body, Quoted(name), i) && Under(b.body, i, filter, w)
      {
      }
    } else {
      NamesIffHit(b, name, filter);
    }
  }

  lemma NamesIffHit(b: Block, name: string, filter: string)
    ensures NamesNothing(b, name, filter) <==> !HitIn(b.body, name, filter, ByNameKey, Contains(b.kind, filter))
  {
    hide Contains, Declaration, OccursAt, KeyBefore, NameFieldAt;
    var w := Contains(b.kind, filter);
    forall p | 0 <= p < |b.body| && MatchAt(b, name, filter, p)
      ensures HitIn(b.body, name, filter, ByNameKey, w)
    {
      MatchIsInText(b.body, name, p);
      MatchHasKey(b.body, name, p);
    }
    forall i | 0 <= i < |b.body| && OccursAt(b.body, Quoted(name), i) && Under(b.body, i, filter, w)
               && Counts(b.body, i, ByNameKey)
      ensures !NamesNothing(b, name, filter)
    {
      var p := KeyHasMatch(b.body, name, i);
      assert MatchAt(b, name, filter, p);
    }
  }

  lemma RStripTo(s: string, m: nat)
    requires m <= |s| && (forall k :: m <= k < |s| ==> IsSpace(s[k])) && (m > 0 ==> !IsSpace(s[m - 1]))
    ensures RStrip(s) == s[..m]
    decreases |s|
  {
    hide IsSpace;
    if m < |s| {
      RStripTo(s[..|s| - 1], m);
      assert s[..|s| - 1][..m] == s[..m];
    } else {
      assert s[..m] == s;
    }
  }

  lemma {:induction false} RStripDropsSpace(s: string)
    ensures forall k :: |RStrip(s)| <= k < |s| ==> IsSpace(s[k])
  {
    hide IsSpace;
    if s != "" && IsSpace(s[|s| - 1]) {
      RStripDropsSpace(s[..|s| - 1]);
    }
  }

  /** A match has its key before its quoted name, ... */
  lemma MatchHasKey(s: string, name: string, p: nat)
    requires NameFieldAt(s, name, p) != -1
    ensures NameFieldAt(s, name, p) <= |s| && KeyBefore(s, NameFieldAt(s, name, p))
  {
    hide NameFieldAt;
    MatchMeans(s, name, p);
    var i, m := NameFieldAt(s, name, p), p + |NAME_KEY|;
    forall k | m <= k < i
      ensures IsSpace(s[..i][k])
    {
      SkipsOnlySpace(s, m, k);
    }
    CharAt(s, NAME_KEY, p, |NAME_KEY| - 1);
    assert !IsSpace(':');
    RStripTo(s[..i], m);
    assert s[..i][..m][m - |NAME_KEY|..] == s[p..m] == NAME_KEY;
  }

  lemma StopsThere(s: string, i: nat, j: nat)
    requires i <= j < |s| && !IsSpace(s[j]) && forall k :: i <= k < j ==> IsSpace(s[k])
    ensures SkipSpace(s, i) == j
    decreases j - i
  {
    hide IsSpace;
    if i < j {
      StopsThere(s, i + 1, j);
    }
  }

  /** ... and a quoted name with a key before it belongs to a match. */
  lemma KeyHasMatch(s: string, name: string, i: nat) returns (p: nat)
    requires i < |s| && OccursAt(s, Quoted(name), i) && KeyBefore(s, i)
    ensures p < i && NameFieldAt(s, name, p) == i
  {
    var r := RStrip(s[..i]);
    KeyEndsAt(s, i);
    p := |r| - |NAME_KEY|;
    hide *;
    QuoteIsNoSpace(s, name, i);
    StopsThere(s, |r|, i);
    MatchThere(s, name, p, i);
  }

  lemma KeyEndsAt(s: string, i: nat)
    requires i <= |s| && KeyBefore(s, i)
    ensures var m := |RStrip(s[..i])|;
            && |NAME_KEY| <= m <= i && OccursAt(s, NAME_KEY, m - |NAME_KEY|) && |NAME_KEY| > 0
            && forall k :: m <= k < i ==> IsSpace(s[k])
  {
    var r := RStrip(s[..i]);
    RStripDropsSpace(s[..i]);
    hide IsSpace, RStrip;
    assert r == s[..|r|] && r[|r| - |NAME_KEY|..] == s[|r| - |NAME_KEY|..|r|];
    assert forall k :: |r| <= k < i ==> s[k] == s[..i][k];
  }

  /** Exactly when the declaration that is named is found by the scanner of the AIDL script: no
      declaration printed before it says the name under a brace declared as wanted, ... */
  lemma NamedIsFoundIff(bs: seq<Block>, ds: seq<Decl>, t: nat, filter: string)
    requires t < |ds| <= |bs| && Contains(ds[t].kind, filter) && Searchable(ds[t].name) && IsKey(filter)
    requires forall j :: 0 <= j <= t ==> bs[j] == ToBlock(ds[j]) && PlainDecl(ds[j])
    ensures FirstQualifying(PrintFile(bs), Quoted(ds[t].name), filter, 0) ==
            |PrintFile(bs[..t])| + |bs[t].kind| + 2 + |NAME_FIELD|
            <==> NoneAttracts(ds, t, filter, ByQuote)
  {
    hide *;
    DeclsAreClear(bs, ds, t, filter, ByQuote);
    SearchableIsFree(ds[t].name);
    BodyIs(ds[t]);
    ClearMeans(bs, t, ds[t].name, filter);
    LookupEndsInTargetIff(bs, t, ds[t].name, filter);
  }

  /** ... and by that of the library script: none says it so behind a key that ends in name.
      References in other fields are harmless. */
  lemma LibraryIsFoundIff(bs: seq<Block>, ds: seq<Decl>, t: nat, keywords: seq<string>, filter: string)
    requires t < |ds| <= |bs| && Contains(ds[t].kind, filter) && Searchable(ds[t].name) && IsKey(filter)
    requires forall j :: 0 <= j <= t ==> bs[j] == ToBlock(ds[j]) && PlainDecl(ds[j])
    requires OneFilter(keywords, filter)
    ensures FirstDeclared(PrintFile(bs), ds[t].name, keywords, 0) ==
            |PrintFile(bs[..t])| + |bs[t].kind| + 2 + OWN_KEY
            <==> NoneAttracts(ds, t, filter, ByNameKey)
  {
    hide *;
    DeclsAreClear(bs, ds, t, filter, ByNameKey);
    SearchableIsFree(ds[t].name);
    BodyIs(ds[t]);
    ClearMeans(bs, t, ds[t].name, filter);
    MatchEndsInTargetIff(bs, t, ds[t].name, keywords, filter);
  }

  predicate NoneAttracts(ds: seq<Decl>, t: nat, filter: string, how: Scanner)
    requires t < |ds|
  {
    forall j :: 0 <= j < t ==>
      !Attracts(Mentions(FieldsOf(ds[j])), ds[t].name, filter, how, Contains(ds[j].kind, filter))
  }

  lemma DeclsAreClear(bs: seq<Block>, ds: seq<Decl>, t: nat, filter: string, how: Scanner)
    requires t < |ds| <= |bs| && Searchable(ds[t].name) && IsKey(filter)
    requires forall j :: 0 <= j <= t ==> bs[j] == ToBlock(ds[j]) && PlainDecl(ds[j])
    ensures forall j :: 0 <= j <= t ==> WellFormed(bs[j]) && NamedFirst(bs[j], ds[j].name)
    ensures NoneAttracts(ds, t, filter, how) <==> forall j :: 0 <= j < t ==> Clear(bs[j], ds[t].name, filter, how)
  {
    hide PlainDecl, ToBlock, WellFormed, NamedFirst, Clear, Attracts, Mentions, FieldsOf, Contains, Searchable, IsKey;
    forall j | 0 <= j <= t
      ensures WellFormed(bs[j]) && NamedFirst(bs[j], ds[j].name)
      ensures Clear(bs[j], ds[t].name, filter, how) <==>
              !Attracts(Mentions(FieldsOf(ds[j])), ds[t].name, filter, how, Contains(ds[j].kind, filter))
    {
      PlainDeclIsWellFormed(ds[j]);
      ClearIffAttracts(ds[j], ds[t].name, filter, how);
    }
  }

  lemma SearchableIsFree(name: string)
    requires Searchable(name)
    ensures Free(name, '{') && Free(name, '}')
  {
  }

  // ---- References are harmless to the library script ----

  lemma {:induction false} AttractsNeedsName(ms: seq<Mention>, name: string, filter: string, wanted: bool)
    requires Attracts(ms, name, filter, ByNameKey, wanted)
    ensures Says(name, true) in ms
  {
    hide Contains;
    var next := if ms[0].Opens? then Contains(ms[0].name, filter) else wanted;
    if Attracts(ms[1..], name, filter, ByNameKey, next) {
      AttractsNeedsName(ms[1..], name, filter, next);
    }
  }

  lemma {:induction false} SaidIsUnnamed(values: seq<string>, v: string)
    ensures Says(v, true) !in Said(values)
  {
    if values != [] {
      SaidIsUnnamed(values[1..], v);
    }
  }

  lemma {:induction false} InfosAreUnnamed(infos: seq<Info>, v: string)
    ensures Says(v, true) !in InfosMentions(infos)
  {
    hide Dec, Said;
    if infos != [] {
      SaidIsUnnamed(infos[0].imports, v);
      InfosAreUnnamed(infos[1..], v);
    }
  }

  /** One of the fields, at any depth, is a name key with this name. */
  predicate HasNameKey(flat: seq<Field>, name: string) {
    exists i :: 0 <= i < |flat| && flat[i].Str? && EndsInName(flat[i].name) && flat[i].value == name
  }

  lemma {:induction false} NamedIsField(fs: seq<Field>, name: string)
    requires Says(name, true) in Mentions(fs)
    ensures HasNameKey(Flatten(fs), name)
    decreases fs
  {
    FirstMentions(fs);
    hide EndsInName, FlattenInfos, InfosMentions, Said;
    var f, nested, rest := fs[0], FlattenOne(fs[0]), Flatten(fs[1..]);
    assert Flatten(fs) == [f] + nested + rest;
    if Says(name, true) in Mentions(fs[1..]) {
      NamedIsField(fs[1..], name);
      KeyAmong([f] + nested, rest, name);
    } else {
      match f
      case Str(_, _) => assert Flatten(fs)[0] == f;
      case Strs(_, values) => SaidIsUnnamed(values, name);
      case Infos(_, infos) => InfosAreUnnamed(infos, name);
      case Group(_, fields) =>
        NamedIsField(fields, name);
        KeyAmong([f], nested, name);
        KeyAmong([f] + nested, rest, name);
      case _ =>
    }
  }

  lemma KeyAmong(a: seq<Field>, b: seq<Field>, name: string)
    ensures HasNameKey(a, name) || HasNameKey(b, name) ==> HasNameKey(a + b, name)
  {
    hide EndsInName;
    var c := a + b;
    assert (forall i :: 0 <= i < |a| ==> c[i] == a[i]) && forall i :: 0 <= i < |b| ==> c[|a| + i] == b[i];
  }

  /** A declaration without a name key of this name never ends the library script's search for it,
      whatever its other fields list, shared libraries and defaults among them. */
  lemma ReferencesAreHarmless(d: Decl, name: string, filter: string)
    requires PlainDecl(d) && Searchable(name) && IsKey(filter)
    requires forall f :: f in Flatten(FieldsOf(d)) && f.Str? && f.value == name ==>
               |f.name| < 4 || f.name[|f.name| - 4..] != "name"
    ensures Clear(ToBlock(d), name, filter, ByNameKey)
  {
    assert !HasNameKey(Flatten(FieldsOf(d)), name);
    hide *;
    ClearIffAttracts(d, name, filter, ByNameKey);
    if Attracts(Mentions(FieldsOf(d)), name, filter, ByNameKey, Contains(d.kind, filter)) {
      AttractsNeedsName(Mentions(FieldsOf(d)), name, filter, Contains(d.kind, filter));
      NamedIsField(FieldsOf(d), name);
    }
  }

  // ---- Reasoning about mentions ----

  /** Fewer wanted braces, fewer hits. */
  lemma {:induction false} AttractsIsMonotone(ms: seq<Mention>, name: string, filter: string, how: Scanner,
                                              less: bool, more: bool)
    requires less ==> more
    ensures Attracts(ms, name, filter, how, less) ==> Attracts(ms, name, filter, how, more)
    ensures WantedAfter(ms, filter, less) ==> WantedAfter(ms, filter, more)
  {
    hide Contains;
    if ms != [] && ms[0].Says? {
      AttractsIsMonotone(ms[1..], name, filter, how, less, more);
    }
  }

  lemma {:induction false} SaidAttracts(values: seq<string>, name: string, filter: string, how: Scanner, wanted: bool)
    ensures Attracts(Said(values), name, filter, how, wanted) <==> wanted && name in values && how.ByQuote?
    ensures WantedAfter(Said(values), filter, wanted) == wanted
  {
    hide Contains;
    if values != [] {
      assert Said(values)[1..] == Said(values[1..]);
      SaidAttracts(values[1..], name, filter, how, wanted);
    }
  }

  /** Version objects open a brace without a name: nothing in them is ever taken for a declaration. */
  lemma InfoNeverAttracts(info: Info, name: string, filter: string, how: Scanner, wanted: bool)
    requires IsKey(filter)
    ensures !Attracts(InfoMentions(info), name, filter, how, wanted) && !WantedAfter(InfoMentions(info), filter, wanted)
  {
    var said := [Says(Dec(info.version), false)] + Said(info.imports);
    assert said == Said([Dec(info.version)] + info.imports) by {
      assert ([Dec(info.version)] + info.imports)[1..] == info.imports;
    }
    NothingIsNoKey(filter);
    hide Contains, Dec, Said;
    SaidAttracts([Dec(info.version)] + info.imports, name, filter, how, false);
    assert InfoMentions(info)[1..] == said;
  }

  lemma {:induction false} InfosAppend(infos: seq<Info>, info: Info)
    ensures InfosMentions(infos + [info]) == InfosMentions(infos) + InfoMentions(info)
  {
    hide InfoMentions;
    if infos == [] {
      assert ([] + [info])[1..] == [];
    } else {
      assert (infos + [info])[1..] == infos[1..] + [info];
      InfosAppend(infos[1..], info);
    }
  }
}
