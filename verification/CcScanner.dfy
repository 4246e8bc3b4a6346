/** The scanner of the library script (verify_cc_libs.py, _match_block): it looks for the quoted name
    behind a name key only. What it returns, and when it agrees with the other script's scanner. */
module CcScanner {
  import opened Text
  import opened Brackets
  import opened SoongFields
  import opened SoongFiles
  import opened SoongScanner

  const NAME_KEY := "name:"

  /** Where the quoted name begins when `name:\s*"NAME"` matches at p, or -1. */
  function NameFieldAt(text: string, name: string, p: nat): (q: int)
    ensures q == -1 || (p + |NAME_KEY| <= q && OccursAt(text, NAME_KEY, p) && OccursAt(text, Quoted(name), q))
  {
    if !OccursAt(text, NAME_KEY, p) then -1
    else
      var q := SkipSpace(text, p + |NAME_KEY|);
      if OccursAt(text, Quoted(name), q) then q else -1
  }

  /** The first match at or after start, or -1. */
  function FindNameField(text: string, name: string, start: nat): (p: int)
    ensures p == -1 || (start <= p < |text| && NameFieldAt(text, name, p) != -1)
    decreases |text| - start
  {
    if start >= |text| then -1
    else if NameFieldAt(text, name, start) != -1 then start
    else FindNameField(text, name, start + 1)
  }

  lemma {:induction false} FindNameFieldIsFirst(text: string, name: string, start: nat, p: nat)
    requires start <= p < |text| && NameFieldAt(text, name, p) != -1
    ensures start <= FindNameField(text, name, start) <= p
    decreases |text| - start
  {
    hide NameFieldAt;
    if start < p {
      if NameFieldAt(text, name, start) == -1 {
        FindNameFieldIsFirst(text, name, start + 1, p);
      }
    }
  }

  predicate Declares(text: string, idx: nat, keywords: seq<string>)
    requires idx <= |text|
  {
    var ob := OpenBrace(text, idx);
    ob >= 0 && exists i :: 0 <= i < |keywords| && Contains(Declaration(text, ob), keywords[i])
  }

  function FirstDeclared(text: string, name: string, keywords: seq<string>, start: nat): (p: int)
    ensures p == -1 || (start <= p < |text| && OpenBrace(text, p) >= 0)
    decreases |text| - start
  {
    var p := FindNameField(text, name, start);
    if p < 0 then -1
    else if Declares(text, p, keywords) then p
    else FirstDeclared(text, name, keywords, NameFieldAt(text, name, p) + |Quoted(name)|)
  }

  function MatchedBlock(text: string, name: string, keywords: seq<string>): Option<string> {
    BlockAt(text, FirstDeclared(text, name, keywords, 0))
  }

  method MatchBlock(text: string, name: string, keywords: seq<string>) returns (r: Option<string>)
    ensures r == MatchedBlock(text, name, keywords)
  {
    hide NameFieldAt, FindNameField, Declaration, Contains, OccursAt, RFindChar;
    var start := 0;
    while true
      invariant FirstDeclared(text, name, keywords, 0) == FirstDeclared(text, name, keywords, start)
      decreases |text| - start
    {
      var p := FindNameField(text, name, start);
      if p < 0 {
        return None;
      }
      var ob := OpenBrace(text, p);
      var next := NameFieldAt(text, name, p) + |Quoted(name)|;
      if ob < 0 {
        start := next;
        continue;
      }
      var decl := Declaration(text, ob);
      if !exists i :: 0 <= i < |keywords| && Contains(decl, keywords[i]) {
        start := next;
        continue;
      }
      var j, _ := FindMatchEnd(text, ob, '{', '}');
      return Some(text[ob..j]);
    }
  }

  // ---- The two scanners ----

  /** Nothing but the key and white space stands between the start of a match and its quote. */
  lemma BetweenKeyAndQuote(text: string, name: string, p: nat, i: nat)
    requires p <= i < NameFieldAt(text, name, p)
    ensures i < |text| && text[i] != '"' && text[i] != '{' && (p < i ==> text[i] != 'n')
  {
    if i < p + |NAME_KEY| {
      CharAt(text, NAME_KEY, p, i - p);
    } else {
      SkipsOnlySpace(text, p + |NAME_KEY|, i);
    }
  }

  lemma SkipsOnlySpace(s: string, i: nat, k: nat)
    requires i <= k < |s| && k < SkipSpace(s, i)
    ensures IsSpace(s[k])
    decreases |s| - i
  {
    hide IsSpace;
    if i < k {
      SkipsOnlySpace(s, i + 1, k);
    }
  }

  lemma MatchIsInText(text: string, name: string, p: nat)
    requires NameFieldAt(text, name, p) != -1
    ensures var q := NameFieldAt(text, name, p);
            && p + |NAME_KEY| <= q && q + |name| + 2 <= |text| && OccursAt(text, Quoted(name), q)
            && text[p] == 'n' && text[q] == '"' && text[q + |name| + 1] == '"'
  {
    var q := NameFieldAt(text, name, p);
    CharAt(text, NAME_KEY, p, 0);
    CharAt(text, Quoted(name), q, 0);
    CharAt(text, Quoted(name), q, |name| + 1);
  }

  /** Key and quote lie under the same brace. */
  lemma SameBrace(text: string, name: string, p: nat)
    requires NameFieldAt(text, name, p) != -1
    ensures NameFieldAt(text, name, p) <= |text|
    ensures OpenBrace(text, p) == OpenBrace(text, NameFieldAt(text, name, p))
  {
    hide NameFieldAt;
    MatchIsInText(text, name, p);
    var q := NameFieldAt(text, name, p);
    forall i | p <= i < q
      ensures text[i] != '{'
    {
      BetweenKeyAndQuote(text, name, p, i);
    }
  }

  /** A list of keywords that all contain the filter, which is itself one of them. */
  ghost predicate OneFilter(keywords: seq<string>, filter: string) {
    filter in keywords && forall i :: 0 <= i < |keywords| ==> filter <= keywords[i]
  }

  lemma PrefixIsContained(s: string, filter: string, keyword: string)
    requires filter <= keyword && Contains(s, keyword)
    ensures Contains(s, filter)
  {
    var i := Find(s, keyword, 0);
    assert s[i..i + |filter|] == s[i..i + |keyword|][..|filter|];
    OccurrenceIsContained(s, filter, i);
  }

  /** A match of one scanner qualifies exactly when its quoted name qualifies for the other. */
  lemma SameJudgement(text: string, name: string, keywords: seq<string>, filter: string, p: nat)
    requires NameFieldAt(text, name, p) != -1 && p <= |text| && OneFilter(keywords, filter)
    ensures NameFieldAt(text, name, p) <= |text|
    ensures Declares(text, p, keywords) <==> Qualifies(text, NameFieldAt(text, name, p), filter)
  {
    hide NameFieldAt, Declaration, Contains, OccursAt;
    SameBrace(text, name, p);
    var ob := OpenBrace(text, p);
    if ob >= 0 {
      var decl := Declaration(text, ob);
      forall i | 0 <= i < |keywords| && Contains(decl, keywords[i])
        ensures Contains(decl, filter)
      {
        PrefixIsContained(decl, filter, keywords[i]);
      }
    }
  }

  /** Of two matches, the one that starts first ends before the other starts. */
  lemma MatchesAreApart(text: string, name: string, p: nat, p': nat)
    requires p < p' && NameFieldAt(text, name, p) != -1 && NameFieldAt(text, name, p') != -1
    ensures NameFieldAt(text, name, p) < p'
  {
    hide NameFieldAt;
    MatchIsInText(text, name, p);
    MatchIsInText(text, name, p');
    if p' < NameFieldAt(text, name, p) {
      BetweenKeyAndQuote(text, name, p, p');
    }
  }

  /** A quote before the quoted name of a match stands before the whole match. */
  lemma QuoteIsBeforeMatch(text: string, name: string, p: nat, i: nat)
    requires NameFieldAt(text, name, p) != -1 && i < NameFieldAt(text, name, p)
    requires i < |text| && text[i] == '"'
    ensures i < p
  {
    hide NameFieldAt;
    if p <= i {
      BetweenKeyAndQuote(text, name, p, i);
    }
  }

  // ---- Least matches ----

  /** One turn of this scanner, and one of the other. */
  lemma DeclaredStep(text: string, name: string, keywords: seq<string>, start: nat)
    ensures var p := FindNameField(text, name, start);
            FirstDeclared(text, name, keywords, start) ==
            if p < 0 then -1
            else if Declares(text, p, keywords) then p
            else FirstDeclared(text, name, keywords, NameFieldAt(text, name, p) + |Quoted(name)|)
  {
    hide NameFieldAt, FindNameField, Declares;
  }

  lemma QualifyingStep(text: string, name: string, filter: string, start: nat)
    ensures var q := Find(text, Quoted(name), start);
            |Quoted(name)| == |name| + 2 &&
            FirstQualifying(text, Quoted(name), filter, start) ==
            if q < 0 then -1
            else if Qualifies(text, q, filter) then q
            else FirstQualifying(text, Quoted(name), filter, q + |Quoted(name)|)
  {
    hide Qualifies, Find;
  }

  /** Overlapping quotations are judged alike: there is no brace in between. */
  lemma OverlapIsJudgedAlike(text: string, name: string, filter: string, k: nat, i: nat)
    requires OccursAt(text, Quoted(name), k) && k < i < k + |Quoted(name)| && Free(name, '{')
    ensures k <= |text| && i <= |text| && (Qualifies(text, k, filter) <==> Qualifies(text, i, filter))
  {
    hide Contains, Declaration;
    OverlapSharesBrace(text, name, k, i);
  }

  /** The other scanner ends at the very first quotation that qualifies. */
  lemma {:induction false} QualifyingIsLeast(text: string, name: string, filter: string, start: nat, i: nat)
    requires Free(name, '{') && start <= i <= |text|
    requires OccursAt(text, Quoted(name), i) && Qualifies(text, i, filter)
    requires forall k :: start <= k < i && OccursAt(text, Quoted(name), k) ==> !Qualifies(text, k, filter)
    ensures FirstQualifying(text, Quoted(name), filter, start) == i
    decreases |text| - start
  {
    hide Qualifies, OccursAt, Find, Free;
    var q := Find(text, Quoted(name), start);
    assert start <= q <= i;
    if q < i {
      if i < q + |Quoted(name)| {
        OverlapIsJudgedAlike(text, name, filter, q, i);
      }
      QualifyingIsLeast(text, name, filter, q + |Quoted(name)|, i);
    }
  }

  /** A match that starts inside the quoted name of another one is declared like it. */
  lemma NextIsJudgedAlike(text: string, name: string, keywords: seq<string>, f: nat, p: nat)
    requires NameFieldAt(text, name, f) != -1 && NameFieldAt(text, name, p) != -1 && Free(name, '{')
    requires f < p < NameFieldAt(text, name, f) + |Quoted(name)|
    ensures f <= |text| && p <= |text| && (Declares(text, f, keywords) <==> Declares(text, p, keywords))
  {
    hide NameFieldAt, Contains, Declaration, OccursAt;
    MatchIsInText(text, name, f);
    MatchIsInText(text, name, p);
    MatchesAreApart(text, name, f, p);
    SameBrace(text, name, f);
    OverlapSharesBrace(text, name, NameFieldAt(text, name, f), p);
  }

  /** This scanner ends at the very first match that is declared as wanted. */
  lemma {:induction false} DeclaredIsLeast(text: string, name: string, keywords: seq<string>, start: nat, p: nat)
    requires Free(name, '{') && start <= p < |text| && NameFieldAt(text, name, p) != -1 && Declares(text, p, keywords)
    requires forall f :: start <= f < p && NameFieldAt(text, name, f) != -1 ==> !Declares(text, f, keywords)
    ensures FirstDeclared(text, name, keywords, start) == p
    decreases |text| - start
  {
    hide *;
    FindNameFieldIsFirst(text, name, start, p);
    DeclaredStep(text, name, keywords, start);
    var f := FindNameField(text, name, start);
    if f < p {
      MatchIsInText(text, name, f);
      if p < NameFieldAt(text, name, f) + |Quoted(name)| {
        NextIsJudgedAlike(text, name, keywords, f, p);
      }
      DeclaredIsLeast(text, name, keywords, NameFieldAt(text, name, f) + |Quoted(name)|, p);
    }
  }

  lemma {:induction false} NoneDeclared(text: string, name: string, keywords: seq<string>, start: nat)
    requires forall f :: 0 <= f < |text| && NameFieldAt(text, name, f) != -1 ==> !Declares(text, f, keywords)
    ensures FirstDeclared(text, name, keywords, start) == -1
    decreases |text| - start
  {
    hide NameFieldAt, FindNameField, Declares;
    var f := FindNameField(text, name, start);
    if f != -1 {
      MatchIsInText(text, name, f);
      NoneDeclared(text, name, keywords, NameFieldAt(text, name, f) + |Quoted(name)|);
    }
  }

  // ---- When the two scanners agree ----

  /** Every quotation of the name that qualifies is the value of a name key. */
  ghost predicate QualifyingAreNamed(text: string, name: string, filter: string) {
    forall q :: 0 <= q <= |text| && OccursAt(text, Quoted(name), q) && Qualifies(text, q, filter) ==>
      exists p: nat :: NameFieldAt(text, name, p) == q
  }

  /** And so is every quotation at all. */
  ghost predicate OnlyNameFields(text: string, name: string) {
    forall q :: OccursAt(text, Quoted(name), q) ==> exists p: nat :: NameFieldAt(text, name, p) == q
  }

  /** Where qualifying quotations only ever stand behind a name key, the two scanners of the two
      scripts return the same block; a name with a brace in it, whose quotations could overlap and
      be judged differently, must not be quoted anywhere else at all. */
  lemma ScannersAgree(text: string, name: string, keywords: seq<string>, filter: string)
    requires OneFilter(keywords, filter)
    requires forall q :: 0 <= q <= |text| && OccursAt(text, Quoted(name), q)
                         && (Free(name, '{') ==> Qualifies(text, q, filter)) ==>
               exists p: nat :: NameFieldAt(text, name, p) == q
    ensures MatchedBlock(text, name, keywords) == NamedBlock(text, name, filter)
  {
    assert QualifyingAreNamed(text, name, filter);
    assert Free(name, '{') || OnlyNameFields(text, name);
    hide *;
    if Free(name, '{') {
      LeastAgree(text, name, keywords, filter);
    } else {
      ScansAgree(text, name, keywords, filter, 0);
    }
    SameBlock(text, name, keywords, filter);
  }

  lemma SameBlock(text: string, name: string, keywords: seq<string>, filter: string)
    requires var p := FirstDeclared(text, name, keywords, 0);
             && (p != -1 ==> NameFieldAt(text, name, p) != -1)
             && FirstQualifying(text, Quoted(name), filter, 0) == if p == -1 then -1 else NameFieldAt(text, name, p)
    ensures MatchedBlock(text, name, keywords) == NamedBlock(text, name, filter)
  {
    hide NameFieldAt, FirstDeclared, FirstQualifying, OpenBrace;
    var p := FirstDeclared(text, name, keywords, 0);
    if p != -1 {
      SameBrace(text, name, p);
    }
  }

  lemma LeastAgree(text: string, name: string, keywords: seq<string>, filter: string)
    requires OneFilter(keywords, filter) && QualifyingAreNamed(text, name, filter) && Free(name, '{')
    ensures var p := FirstDeclared(text, name, keywords, 0);
            && (p != -1 ==> NameFieldAt(text, name, p) != -1)
            && FirstQualifying(text, Quoted(name), filter, 0) == if p == -1 then -1 else NameFieldAt(text, name, p)
  {
    hide *;
    if f: nat :| f < |text| && NameFieldAt(text, name, f) != -1 && Declares(text, f, keywords) {
      var p := LeastDeclared(text, name, keywords, f);
      DeclaredIsLeast(text, name, keywords, 0, p);
      MatchIsInText(text, name, p);
      SameJudgement(text, name, keywords, filter, p);
      var q := NameFieldAt(text, name, p);
      forall k | 0 <= k < q && k <= |text| && OccursAt(text, Quoted(name), k)
        ensures !Qualifies(text, k, filter)
      {
        if Qualifies(text, k, filter) {
          var p' := KeyOf(text, name, keywords, filter, k);
          if p < p' {
            MatchesAreApart(text, name, p, p');
          }
        }
      }
      QualifyingIsLeast(text, name, filter, 0, q);
    } else {
      NoneDeclared(text, name, keywords, 0);
      forall k | 0 <= k <= |text| && OccursAt(text, Quoted(name), k)
        ensures !Qualifies(text, k, filter)
      {
        if Qualifies(text, k, filter) {
          var p' := KeyOf(text, name, keywords, filter, k);
        }
      }
      NoneQualifies(text, name, filter, 0);
    }
  }

  /** The declared match around a qualifying quotation. */
  lemma KeyOf(text: string, name: string, keywords: seq<string>, filter: string, k: nat) returns (p: nat)
    requires OneFilter(keywords, filter) && QualifyingAreNamed(text, name, filter)
    requires k <= |text| && OccursAt(text, Quoted(name), k) && Qualifies(text, k, filter)
    ensures p < k && p < |text| && NameFieldAt(text, name, p) == k && Declares(text, p, keywords)
  {
    hide NameFieldAt, Qualifies, OccursAt, Declares, OneFilter;
    p :| NameFieldAt(text, name, p) == k;
    MatchIsInText(text, name, p);
    SameJudgement(text, name, keywords, filter, p);
  }

  lemma LeastDeclared(text: string, name: string, keywords: seq<string>, f: nat) returns (p: nat)
    requires f < |text| && NameFieldAt(text, name, f) != -1 && Declares(text, f, keywords)
    ensures p <= f && NameFieldAt(text, name, p) != -1 && Declares(text, p, keywords)
    ensures forall k :: 0 <= k < p && NameFieldAt(text, name, k) != -1 ==> !Declares(text, k, keywords)
  {
    hide NameFieldAt, Declares;
    p := 0;
    while !(NameFieldAt(text, name, p) != -1 && Declares(text, p, keywords))
      invariant p <= f
      invariant forall k :: 0 <= k < p && NameFieldAt(text, name, k) != -1 ==> !Declares(text, k, keywords)
      decreases f - p
    {
      p := p + 1;
    }
  }

  lemma {:induction false} NoneQualifies(text: string, name: string, filter: string, start: nat)
    requires forall k :: 0 <= k <= |text| && OccursAt(text, Quoted(name), k) ==> !Qualifies(text, k, filter)
    ensures FirstQualifying(text, Quoted(name), filter, start) == -1
    decreases |text| - start
  {
    hide Qualifies, OccursAt, Find;
    var q := Find(text, Quoted(name), start);
    if q != -1 {
      NoneQualifies(text, name, filter, q + |Quoted(name)|);
    }
  }

  lemma {:induction false} ScansAgree(text: string, name: string, keywords: seq<string>, filter: string, start: nat)
    requires OneFilter(keywords, filter) && OnlyNameFields(text, name)
    requires start == 0 || (start <= |text| && text[start - 1] == '"')
    ensures var p := FirstDeclared(text, name, keywords, start);
            FirstQualifying(text, Quoted(name), filter, start) ==
            if p == -1 then -1 else NameFieldAt(text, name, p)
    ensures var p := FirstDeclared(text, name, keywords, start); p != -1 ==> NameFieldAt(text, name, p) != -1
    decreases |text| - start
  {
    hide *;
    NextMatch(text, name, start);
    DeclaredStep(text, name, keywords, start);
    QualifyingStep(text, name, filter, start);
    var p := FindNameField(text, name, start);
    if p != -1 {
      MatchIsInText(text, name, p);
      SameJudgement(text, name, keywords, filter, p);
      var q := NameFieldAt(text, name, p);
      ScansAgree(text, name, keywords, filter, q + |Quoted(name)|);
    }
  }

  /** The next match holds the next quoted name. */
  lemma NextMatch(text: string, name: string, start: nat)
    requires OnlyNameFields(text, name) && (start == 0 || (start <= |text| && text[start - 1] == '"'))
    ensures var p := FindNameField(text, name, start);
            Find(text, Quoted(name), start) == if p == -1 then -1 else NameFieldAt(text, name, p)
  {
    hide NameFieldAt, FindNameField, OccursAt;
    var p := FindNameField(text, name, start);
    var q := Find(text, Quoted(name), start);
    if p != -1 {
      MatchIsInText(text, name, p);
    }
    if q != -1 {
      var p': nat :| NameFieldAt(text, name, p') == q;
      MatchIsInText(text, name, p');
      if start > 0 {
        assert start - 1 < q;
        QuoteIsBeforeMatch(text, name, p', start - 1);
      }
      FindNameFieldIsFirst(text, name, start, p');
      if p < p' {
        MatchesAreApart(text, name, p, p');
      }
    }
  }
}
