/** Looking a library up in printed files (verify_cc_libs.py, _match_block): only a name key with the
    name can end the search, so references in other fields do not. */
module CcFiles {
  import opened Text
  import opened Brackets
  import opened SoongFields
  import opened SoongFiles
  import opened SoongScanner
  import opened CcScanner

  /** A name key with the name stands at p in the body, under a brace declared as wanted. */
  ghost predicate MatchAt(b: Block, name: string, filter: string, p: nat) {
    && p < |b.body| && NameFieldAt(b.body, name, p) != -1
    && HitAt(b, name, filter, NameFieldAt(b.body, name, p))
  }

  /** The search cannot end in this block, whatever else it quotes. */
  ghost predicate NamesNothing(b: Block, name: string, filter: string) {
    forall p :: 0 <= p < |b.body| ==> !MatchAt(b, name, filter, p)
  }

  ghost predicate FirstMatch(b: Block, name: string, filter: string, i: nat) {
    MatchAt(b, name, filter, i) && forall k :: 0 <= k < i ==> !MatchAt(b, name, filter, k)
  }

  lemma UnambiguousNamesNothing(b: Block, name: string, filter: string)
    requires Unambiguous(b, name, filter)
    ensures NamesNothing(b, name, filter)
  {
    hide HitAt, NameFieldAt;
    forall p | 0 <= p < |b.body|
      ensures !MatchAt(b, name, filter, p)
    {
      if NameFieldAt(b.body, name, p) != -1 {
        MatchIsInText(b.body, name, p);
      }
    }
  }

  lemma SkipSpaceStep(s: string, i: nat)
    requires i < |s|
    ensures SkipSpace(s, i) == if IsSpace(s[i]) then SkipSpace(s, i + 1) else i
  {
  }

  lemma SkipSpaceInPart(text: string, body: string, at: nat, i: nat)
    requires OccursAt(text, body, at) && i <= |body| && SkipSpace(body, i) < |body|
    ensures at + i <= |text| && SkipSpace(text, at + i) == at + SkipSpace(body, i)
    decreases |body| - i
  {
    hide *;
    SkipSpaceEnds(body, i);
    CharAt(text, body, at, i);
    BodyFits(text, body, at);
    SkipSpaceStep(body, i);
    SkipSpaceStep(text, at + i);
    if IsSpace(body[i]) {
      SkipSpaceInPart(text, body, at, i + 1);
    }
  }

  lemma SkipSpaceEnds(s: string, i: nat)
    requires i <= |s|
    ensures i <= SkipSpace(s, i) <= |s|
  {
  }

  lemma MatchMeans(text: string, name: string, p: nat)
    requires NameFieldAt(text, name, p) != -1
    ensures var q := NameFieldAt(text, name, p);
            && OccursAt(text, NAME_KEY, p) && OccursAt(text, Quoted(name), q) && p + |NAME_KEY| <= q < |text|
            && q == SkipSpace(text, p + |NAME_KEY|)
  {
    MatchIsInText(text, name, p);
  }

  /** A match in a body is one in the file. */
  lemma MatchOfBody(text: string, body: string, at: nat, name: string, i: nat)
    requires OccursAt(text, body, at) && NameFieldAt(body, name, i) != -1
    ensures NameFieldAt(text, name, at + i) == at + NameFieldAt(body, name, i)
  {
    hide *;
    var q := NameFieldAt(body, name, i);
    MatchMeans(body, name, i);
    PartOccurs(text, body, at, NAME_KEY, i);
    PartOccurs(text, body, at, Quoted(name), q);
    SkipSpaceInPart(text, body, at, i + |NAME_KEY|);
    MatchThere(text, name, at + i, at + q);
  }

  lemma PartOccurs(text: string, body: string, at: nat, pat: string, i: nat)
    requires OccursAt(text, body, at) && OccursAt(body, pat, i)
    ensures OccursAt(text, pat, at + i)
  {
    SliceAt(text, body, at, i, i + |pat|);
  }

  /** A match in the file whose quoted name lies in a body lies in that body as a whole. */
  lemma MatchInBody(text: string, body: string, at: nat, name: string, p: nat)
    requires OccursAt(text, body, at) && at > 0 && at <= |text| && text[at - 1] == '{'
    requires NameFieldAt(text, name, p) != -1
    requires at <= NameFieldAt(text, name, p) && NameFieldAt(text, name, p) + |Quoted(name)| <= at + |body|
    ensures at <= p < at + |body| && NameFieldAt(body, name, p - at) == NameFieldAt(text, name, p) - at
  {
    var q := NameFieldAt(text, name, p);
    hide *;
    MatchMeans(text, name, p);
    KeyIsLong();
    MatchIsInText(text, name, p);
    BraceIsBeforeMatch(text, name, p, at - 1);
    OccursInPart(text, body, at, NAME_KEY, p);
    OccursInPart(text, body, at, Quoted(name), q);
    QuoteIsNoSpace(body, name, q - at);
    StopsAt(body, p - at + |NAME_KEY|, q - at);
    SkipSpaceInPart(text, body, at, p - at + |NAME_KEY|);
    MatchThere(body, name, p - at, q - at);
  }

  lemma KeyIsLong()
    ensures |NAME_KEY| == 5
  {
  }

  lemma BraceIsBeforeMatch(text: string, name: string, p: nat, i: nat)
    requires NameFieldAt(text, name, p) != -1 && i < |text| && text[i] == '{' && i < NameFieldAt(text, name, p)
    ensures i < p
  {
    hide NameFieldAt;
    if p <= i {
      BetweenKeyAndQuote(text, name, p, i);
    }
  }

  lemma MatchThere(text: string, name: string, p: nat, q: nat)
    requires OccursAt(text, NAME_KEY, p) && OccursAt(text, Quoted(name), q)
    requires p + |NAME_KEY| <= |text| && q == SkipSpace(text, p + |NAME_KEY|)
    ensures NameFieldAt(text, name, p) == q
  {
    hide OccursAt, SkipSpace;
  }

  lemma QuoteIsNoSpace(text: string, name: string, q: nat)
    requires OccursAt(text, Quoted(name), q)
    ensures q < |text| && !IsSpace(text[q])
  {
    CharAt(text, Quoted(name), q, 0);
  }

  lemma NameFieldThere(text: string, name: string, q: nat)
    requires q >= 6 && OccursAt(text, "name: ", q - 6) && OccursAt(text, Quoted(name), q)
    requires q < |text| && !IsSpace(text[q])
    ensures NameFieldAt(text, name, q - 6) == q
  {
    SliceAt(text, "name: ", q - 6, 0, 5);
    CharAt(text, "name: ", q - 6, 5);
    assert IsSpace(text[q - 1]);
    hide OccursAt, IsSpace;
    assert "name: "[0..5] == NAME_KEY;
    assert SkipSpace(text, q) == q && SkipSpace(text, q - 1) == q;
  }

  /** A match of the file belongs to the block its quoted name lies in, and is declared as wanted
      exactly when it is one of that block's. */
  lemma DeclaredInBlock(text: string, start: nat, b: Block, name: string, keywords: seq<string>, filter: string,
                        p: nat)
    requires WellFormed(b) && OccursAt(text, PrintBlock(b), start) && (start == 0 || text[start - 1] == '\n')
    requires OneFilter(keywords, filter) && Free(name, '{') && Free(name, '}')
    requires NameFieldAt(text, name, p) != -1
    requires start <= NameFieldAt(text, name, p) < start + |PrintBlock(b)|
    ensures p <= |text| && start + |b.kind| + 2 <= p
    ensures Declares(text, p, keywords) <==> MatchAt(b, name, filter, p - (start + |b.kind| + 2))
  {
    var q, at := NameFieldAt(text, name, p), start + |b.kind| + 2;
    hide *;
    MatchIsInText(text, name, p);
    OccurrenceIsInBody(text, start, b, name, q);
    BodyAt(text, start, b);
    BodyFits(text, b.body, at);
    MatchInBody(text, b.body, at, name, p);
    SameJudgement(text, name, keywords, filter, p);
    JudgedInBody(text, start, b, name, filter, q - at);
    MatchAtIs(b, name, filter, p - at);
  }

  lemma MatchAtIs(b: Block, name: string, filter: string, p: nat)
    ensures MatchAt(b, name, filter, p) <==>
            p < |b.body| && NameFieldAt(b.body, name, p) != -1 && HitAt(b, name, filter, NameFieldAt(b.body, name, p))
  {
  }

  /** No match in the blocks before block t is declared as wanted. */
  lemma EarlierMatches(bs: seq<Block>, t: nat, name: string, keywords: seq<string>, filter: string, p: nat)
    requires t <= |bs| && OneFilter(keywords, filter) && Free(name, '{') && Free(name, '}')
    requires forall j :: 0 <= j < t ==> WellFormed(bs[j]) && NamesNothing(bs[j], name, filter)
    requires NameFieldAt(PrintFile(bs), name, p) != -1
    requires NameFieldAt(PrintFile(bs), name, p) < |PrintFile(bs[..t])|
    ensures p <= |PrintFile(bs)| && !Declares(PrintFile(bs), p, keywords)
    decreases t
  {
    hide *;
    var text := PrintFile(bs);
    MatchIsInText(text, name, p);
    if t == 0 {
      NothingBefore(bs);
    } else {
      OneMoreBlock(bs, t - 1);
      var start := |PrintFile(bs[..t - 1])|;
      if NameFieldAt(text, name, p) < start {
        EarlierMatches(bs, t - 1, name, keywords, filter, p);
      } else {
        PrintFileSplit(bs, t - 1);
        DeclaredInBlock(text, start, bs[t - 1], name, keywords, filter, p);
        NamesNothingAt(bs[t - 1], name, filter, p - (start + |bs[t - 1].kind| + 2));
      }
    }
  }

  lemma NothingBefore(bs: seq<Block>)
    ensures |PrintFile(bs[..0])| == 0
  {
  }

  lemma NamesNothingAt(b: Block, name: string, filter: string, p: nat)
    requires NamesNothing(b, name, filter)
    ensures !MatchAt(b, name, filter, p)
  {
    hide HitAt, NameFieldAt;
  }

  /** Where the search ends: at the first match of the first block that has one. */
  lemma MatchEndsAt(bs: seq<Block>, j: nat, name: string, keywords: seq<string>, filter: string, i: nat)
    requires OneFilter(keywords, filter) && j < |bs| && Free(name, '{') && Free(name, '}')
    requires forall k :: 0 <= k < j ==> WellFormed(bs[k]) && NamesNothing(bs[k], name, filter)
    requires WellFormed(bs[j]) && FirstMatch(bs[j], name, filter, i)
    ensures FirstDeclared(PrintFile(bs), name, keywords, 0) == |PrintFile(bs[..j])| + |bs[j].kind| + 2 + i
    ensures |PrintFile(bs[..j])| + |bs[j].kind| + 2 + i < |PrintFile(bs[..j + 1])|
  {
    hide *;
    var text, start, b := PrintFile(bs), |PrintFile(bs[..j])|, bs[j];
    var at := start + |b.kind| + 2;
    var p := at + i;
    PrintFileSplit(bs, j);
    BodyAt(text, start, b);
    OneMoreBlock(bs, j);
    BlockParts(b);
    FirstMatchIs(b, name, filter, i);
    MatchAtIs(b, name, filter, i);
    MatchOfBody(text, b.body, at, name, i);
    MatchIsInText(b.body, name, i);
    MatchIsInText(text, name, p);
    DeclaredInBlock(text, start, b, name, keywords, filter, p);
    forall f | 0 <= f < p && NameFieldAt(text, name, f) != -1
      ensures f <= |text| && !Declares(text, f, keywords)
    {
      MatchIsInText(text, name, f);
      MatchesAreApart(text, name, f, p);
      if NameFieldAt(text, name, f) < start {
        EarlierMatches(bs, j, name, keywords, filter, f);
      } else {
        DeclaredInBlock(text, start, b, name, keywords, filter, f);
      }
    }
    DeclaredIsLeast(text, name, keywords, 0, p);
  }

  lemma FirstMatchIs(b: Block, name: string, filter: string, i: nat)
    requires FirstMatch(b, name, filter, i)
    ensures MatchAt(b, name, filter, i) && forall k: nat :: k < i ==> !MatchAt(b, name, filter, k)
  {
    hide MatchAt;
  }

  const OWN_KEY: nat := 5  // where the first name key of a printed block begins

  /** A block's own name key, which it prints first, is its first match. */
  lemma OwnKeyIsFirstMatch(b: Block, name: string, filter: string)
    requires NamedFirst(b, name) && Contains(b.kind, filter)
    ensures FirstMatch(b, name, filter, OWN_KEY) && NameFieldAt(b.body, name, OWN_KEY) == |NAME_FIELD|
    ensures OpenBrace(b.body, OWN_KEY) == -1
  {
    hide *;
    KeyInBody(b, name);
    OwnNameIsFirstHit(b, name, filter);
    FirstHitIsHit(b, name, filter, |NAME_FIELD|);
    HitIsInBody(b, name, filter, |NAME_FIELD|);
    QuoteIsNoSpace(b.body, name, |NAME_FIELD|);
    NameFieldThere(b.body, name, |NAME_FIELD|);
    SameBrace(b.body, name, OWN_KEY);
    MatchAtIs(b, name, filter, OWN_KEY);
    forall k | 0 <= k < OWN_KEY
      ensures !MatchAt(b, name, filter, k)
    {
      MatchAtIs(b, name, filter, k);
      if NameFieldAt(b.body, name, k) != -1 {
        MatchIsInText(b.body, name, k);
      }
    }
    FirstMatchThere(b, name, filter, OWN_KEY);
  }

  lemma FirstMatchThere(b: Block, name: string, filter: string, i: nat)
    requires MatchAt(b, name, filter, i) && forall k :: 0 <= k < i ==> !MatchAt(b, name, filter, k)
    ensures FirstMatch(b, name, filter, i)
  {
    hide MatchAt;
  }

  lemma KeyInBody(b: Block, name: string)
    requires NamedFirst(b, name)
    ensures |NAME_FIELD| == OWN_KEY + 6 == 11 <= |b.body| && OccursAt(b.body, "name: ", OWN_KEY)
    ensures forall k :: 0 <= k < OWN_KEY ==> b.body[k] != 'n'
  {
    assert |NAME_FIELD| == 11 && forall k :: 0 <= k < OWN_KEY ==> NAME_FIELD[k] != 'n';
    var n := NAME_FIELD + Quoted(name);
    assert forall k :: 0 <= k < 11 ==> b.body[k] == n[k] == NAME_FIELD[k];
    assert b.body[OWN_KEY..11] == NAME_FIELD[OWN_KEY..11] == "name: ";
  }

  lemma MatchedIs(text: string, name: string, keywords: seq<string>)
    ensures var p := FirstDeclared(text, name, keywords, 0);
            (MatchedBlock(text, name, keywords) == None <==> p == -1) &&
            (p != -1 ==>
              var ob := OpenBrace(text, p);
              MatchedBlock(text, name, keywords) == Some(text[ob..MatchEnd(text, ob, '{', '}')]))
  {
    hide FirstDeclared;
  }

  /** This scanner, too, returns exactly the block a name names in a printed file, and references to
      the name in other fields of earlier blocks do not disturb it. */
  lemma PrintedMatch(bs: seq<Block>, t: nat, name: string, keywords: seq<string>, filter: string)
    requires OneFilter(keywords, filter)
    requires t < |bs| && WellFormed(bs[t]) && NamedFirst(bs[t], name) && Contains(bs[t].kind, filter)
    requires Nested(bs[t].body, '{', '}') && Free(name, '{') && Free(name, '}')
    requires forall j :: 0 <= j < t ==> WellFormed(bs[j]) && NamesNothing(bs[j], name, filter)
    ensures MatchedBlock(PrintFile(bs), name, keywords) == Some(BlockText(bs[t]))
  {
    hide *;
    var text, start := PrintFile(bs), |PrintFile(bs[..t])|;
    OwnKeyIsFirstMatch(bs[t], name, filter);
    MatchEndsAt(bs, t, name, keywords, filter, OWN_KEY);
    PrintFileSplit(bs, t);
    KeyInBody(bs[t], name);
    OpenBraceInBody(text, start, bs[t], OWN_KEY);
    OwnBraceMatches(text, start, bs[t]);
    MatchedIs(text, name, keywords);
  }

  // ---- The exact conditions ----

  lemma LeastMatch(b: Block, name: string, filter: string) returns (i: nat)
    requires !NamesNothing(b, name, filter)
    ensures FirstMatch(b, name, filter, i)
  {
    hide MatchAt;
    var j: nat :| j < |b.body| && MatchAt(b, name, filter, j);
    i := 0;
    while !MatchAt(b, name, filter, i)
      invariant i <= j && forall k :: 0 <= k < i ==> !MatchAt(b, name, filter, k)
      decreases j - i
    {
      i := i + 1;
    }
  }

  lemma FirstNaming(bs: seq<Block>, t: nat, name: string, filter: string) returns (j: nat)
    requires t <= |bs| && exists k :: 0 <= k < t && !NamesNothing(bs[k], name, filter)
    ensures j < t && !NamesNothing(bs[j], name, filter)
    ensures forall k :: 0 <= k < j ==> NamesNothing(bs[k], name, filter)
  {
    hide NamesNothing;
    j := 0;
    while NamesNothing(bs[j], name, filter)
      invariant j < t && forall k :: 0 <= k < j ==> NamesNothing(bs[k], name, filter)
      decreases t - j
    {
      j := j + 1;
    }
  }

  /** Exactly when the search ends at the target's own name key: no block before it names the name. */
  lemma MatchEndsInTargetIff(bs: seq<Block>, t: nat, name: string, keywords: seq<string>, filter: string)
    requires OneFilter(keywords, filter) && t < |bs| && NamedFirst(bs[t], name) && Contains(bs[t].kind, filter)
    requires Free(name, '{') && Free(name, '}') && forall j :: 0 <= j <= t ==> WellFormed(bs[j])
    ensures FirstDeclared(PrintFile(bs), name, keywords, 0) == |PrintFile(bs[..t])| + |bs[t].kind| + 2 + OWN_KEY
            <==> forall j :: 0 <= j < t ==> NamesNothing(bs[j], name, filter)
  {
    hide *;
    if forall j :: 0 <= j < t ==> NamesNothing(bs[j], name, filter) {
      OwnKeyIsFirstMatch(bs[t], name, filter);
      MatchEndsAt(bs, t, name, keywords, filter, OWN_KEY);
    } else {
      var j := FirstNaming(bs, t, name, filter);
      var i := LeastMatch(bs[j], name, filter);
      MatchEndsAt(bs, j, name, keywords, filter, i);
      ShorterFile(bs, j + 1, t);
    }
  }

  /** Exactly when it finds nothing: no block names the name. */
  lemma MatchFailsIff(bs: seq<Block>, name: string, keywords: seq<string>, filter: string)
    requires OneFilter(keywords, filter) && Free(name, '{') && Free(name, '}')
    requires forall j :: 0 <= j < |bs| ==> WellFormed(bs[j])
    ensures MatchedBlock(PrintFile(bs), name, keywords) == None <==>
            forall j :: 0 <= j < |bs| ==> NamesNothing(bs[j], name, filter)
  {
    hide *;
    var text := PrintFile(bs);
    MatchedIs(text, name, keywords);
    if forall j :: 0 <= j < |bs| ==> NamesNothing(bs[j], name, filter) {
      assert bs[..|bs|] == bs;
      forall f | 0 <= f < |text| && NameFieldAt(text, name, f) != -1
        ensures !Declares(text, f, keywords)
      {
        MatchIsInText(text, name, f);
        EarlierMatches(bs, |bs|, name, keywords, filter, f);
      }
      NoneDeclared(text, name, keywords, 0);
    } else {
      var j := FirstNaming(bs, |bs|, name, filter);
      var i := LeastMatch(bs[j], name, filter);
      MatchEndsAt(bs, j, name, keywords, filter, i);
    }
  }
}
