/** Soong files as printed sequences of blocks, and what looking a name up in one returns. */
module SoongFiles {
  import opened Text
  import opened Brackets
  import opened SoongScanner

  // ---- Lookup over a printed file ----

  datatype Block = Block(kind: string, body: string)

  function BlockText(b: Block): string {
    "{" + b.body + "}"
  }

  function PrintBlock(b: Block): string {
    b.kind + " " + BlockText(b) + "\n"
  }

  function PrintFile(bs: seq<Block>): string {
    if bs == [] then "" else PrintFile(bs[..|bs| - 1]) + PrintBlock(bs[|bs| - 1])
  }

  const NAME_FIELD := "\n    name: "

  predicate PlainKind(kind: string) {
    && kind != "" && !IsSpace(kind[0]) && !IsSpace(kind[|kind| - 1])
    && Free(kind, '"') && Free(kind, '\n') && Free(kind, '{') && Free(kind, '}')
  }

  /** A printed block: its fields start on lines of their own. */
  ghost predicate WellFormed(b: Block) {
    PlainKind(b.kind) && b.body != "" && b.body[0] == '\n'
  }

  predicate NamedFirst(b: Block, name: string) {
    NAME_FIELD + Quoted(name) <= b.body
  }

  /** The quoted name stands at i in the body, and the nearest brace before it, inside the body
      or else the block's own, is declared as wanted. */
  ghost predicate HitAt(b: Block, name: string, filter: string, i: nat) {
    && OccursAt(b.body, Quoted(name), i)
    && Contains(if OpenBrace(b.body, i) < 0 then b.kind else Declaration(b.body, OpenBrace(b.body, i)), filter)
  }

  /** Looking the name up cannot end in this block. */
  ghost predicate Unambiguous(b: Block, name: string, filter: string) {
    forall i :: 0 <= i < |b.body| ==> !HitAt(b, name, filter, i)
  }

  /** The first hit of the block, where the scan, which does not overlap, arrives. */
  ghost predicate FirstHit(b: Block, name: string, filter: string, i: nat) {
    && HitAt(b, name, filter, i)
    && forall k :: 0 <= k < i && OccursAt(b.body, Quoted(name), k) ==>
         !HitAt(b, name, filter, k) && k + |Quoted(name)| <= i
  }

  lemma StripSpaced(b: Block)
    requires WellFormed(b)
    ensures Strip(b.kind + " ") == b.kind
  {
    var kind := b.kind;
    var s := kind + " ";
    assert s[0] == kind[0] && LStrip(s) == s;
    assert s[..|s| - 1] == kind && RStrip(s) == RStrip(kind) == kind;
  }

  /** The declaration in front of a block's own brace is its kind. */
  lemma OwnDeclaration(text: string, start: nat, b: Block)
    requires WellFormed(b) && OccursAt(text, PrintBlock(b), start)
    requires start == 0 || text[start - 1] == '\n'
    ensures text[start + |b.kind| + 1] == '{' && Declaration(text, start + |b.kind| + 1) == b.kind
  {
    hide *;
    var brace := start + |b.kind| + 1;
    BodyAt(text, start, b);
    KindLine(text, start, b);
    StripSpaced(b);
    assert Declaration(text, brace) == Strip(text[RFindChar(text, '\n', brace) + 1..brace]) by {
      DeclarationIs(text, brace);
    }
  }

  lemma DeclarationIs(text: string, brace: nat)
    requires brace < |text|
    ensures Declaration(text, brace) == Strip(text[RFindChar(text, '\n', brace) + 1..brace])
  {
    hide Strip, RFindChar;
  }

  lemma KindLine(text: string, start: nat, b: Block)
    requires WellFormed(b) && OccursAt(text, PrintBlock(b), start)
    requires start == 0 || text[start - 1] == '\n'
    ensures start + |b.kind| + 1 < |text|
    ensures text[start..start + |b.kind| + 1] == b.kind + " "
    ensures RFindChar(text, '\n', start + |b.kind| + 1) + 1 == start
  {
    hide Strip, IsSpace;
    var brace := start + |b.kind| + 1;
    var line := b.kind + " ";
    SliceAt(text, PrintBlock(b), start, 0, |line|);
    assert PrintBlock(b)[..|line|] == line;
    assert text[start..brace] == line;
    forall i | start <= i < brace
      ensures text[i] != '\n'
    {
      assert text[i] == text[start..brace][i - start] == line[i - start];
    }
  }

  lemma BodyAt(text: string, start: nat, b: Block)
    requires OccursAt(text, PrintBlock(b), start)
    ensures OccursAt(text, b.body, start + |b.kind| + 2)
    ensures text[start + |b.kind| + 1] == '{'
    ensures text[start + |b.kind| + 2 + |b.body|] == '}'
    ensures text[start + |b.kind| + 3 + |b.body|] == '\n'
    ensures OccursAt(text, BlockText(b), start + |b.kind| + 1)
  {
    var p := PrintBlock(b);
    var k := |b.kind|;
    BlockParts(b);
    hide PrintBlock, BlockText;
    SliceAt(text, p, start, k + 2, k + 2 + |b.body|);
    SliceAt(text, p, start, k + 1, k + 3 + |b.body|);
    CharAt(text, p, start, k + 1);
    CharAt(text, p, start, k + 2 + |b.body|);
    CharAt(text, p, start, k + 3 + |b.body|);
  }

  lemma BlockParts(b: Block)
    ensures var p, k := PrintBlock(b), |b.kind|;
            && |p| == k + 4 + |b.body| && |BlockText(b)| == |b.body| + 2
            && p[k + 2..k + 2 + |b.body|] == b.body && p[k + 1..k + 3 + |b.body|] == BlockText(b)
            && p[k + 1] == '{' && p[k + 2 + |b.body|] == '}' && p[k + 3 + |b.body|] == '\n'
  {
  }

  lemma NoQuoteBeforeBody(text: string, start: nat, b: Block, i: nat)
    requires PlainKind(b.kind) && OccursAt(text, PrintBlock(b), start)
    ensures start <= i < start + |b.kind| + 2 ==> i < |text| && text[i] != '"'
  {
    if start <= i < start + |b.kind| + 2 {
      var p := PrintBlock(b);
      CharAt(text, p, start, i - start);
      assert i - start < |b.kind| ==> p[i - start] == b.kind[i - start];
    }
  }

  lemma NameHoldsNot(text: string, name: string, i: nat, c: char, at: nat)
    requires OccursAt(text, Quoted(name), i) && Free(name, c) && c != '"'
    ensures i <= at < i + |Quoted(name)| ==> at < |text| && text[at] != c
  {
    if i <= at < i + |Quoted(name)| {
      CharAt(text, Quoted(name), i, at - i);
      QuotedIsFree(name, c, at - i);
    }
  }

  /** A quoted name can stand nowhere in a printed block but inside its body. */
  lemma OccurrenceIsInBody(text: string, start: nat, b: Block, name: string, i: nat)
    requires WellFormed(b) && OccursAt(text, PrintBlock(b), start)
    requires Free(name, '{') && Free(name, '}')
    requires OccursAt(text, Quoted(name), i) && start <= i < start + |PrintBlock(b)|
    ensures var bodyAt := start + |b.kind| + 2;
            && bodyAt <= i && i + |Quoted(name)| <= bodyAt + |b.body|
            && OccursAt(b.body, Quoted(name), i - bodyAt)
  {
    hide PrintBlock, Quoted, OccursAt, PlainKind, Free;
    var bodyAt := start + |b.kind| + 2;
    var close := bodyAt + |b.body|;
    QuoteIsAt(text, name, i);
    NoQuoteBeforeBody(text, start, b, i);
    BodyAt(text, start, b);
    BlockParts(b);
    NameHoldsNot(text, name, i, '}', close);
    OccursInPart(text, b.body, bodyAt, Quoted(name), i);
  }

  lemma QuoteIsAt(text: string, name: string, i: nat)
    requires OccursAt(text, Quoted(name), i)
    ensures i < |text| && text[i] == '"' && |Quoted(name)| >= 2
  {
    CharAt(text, Quoted(name), i, 0);
  }

  lemma OccursInPart(text: string, body: string, bodyAt: nat, pat: string, i: nat)
    requires OccursAt(text, body, bodyAt) && OccursAt(text, pat, i)
    requires bodyAt <= i && i + |pat| <= bodyAt + |body|
    ensures OccursAt(body, pat, i - bodyAt)
  {
    SliceOfSlice(text, bodyAt, bodyAt + |body|, i - bodyAt, i - bodyAt + |pat|);
  }

  lemma QuotedIsFree(name: string, c: char, k: nat)
    requires Free(name, c) && c != '"' && k < |Quoted(name)|
    ensures Quoted(name)[k] != c
  {
  }

  lemma OccurrenceOfBody(text: string, start: nat, b: Block, pat: string, i: nat)
    requires OccursAt(text, PrintBlock(b), start) && OccursAt(b.body, pat, i)
    ensures OccursAt(text, pat, start + |b.kind| + 2 + i)
  {
    BodyAt(text, start, b);
    SliceAt(text, b.body, start + |b.kind| + 2, i, i + |pat|);
  }

  /** The nearest brace before a place in the body. */
  lemma OpenBraceInBody(text: string, start: nat, b: Block, i: nat)
    requires OccursAt(text, PrintBlock(b), start) && i <= |b.body|
    ensures var bodyAt := start + |b.kind| + 2;
            && bodyAt + i <= |text|
            && OpenBrace(text, bodyAt + i) == bodyAt + OpenBrace(b.body, i)
  {
    var bodyAt := start + |b.kind| + 2;
    BodyAt(text, start, b);
    hide PrintBlock;
    forall k | 0 <= k < i
      ensures text[bodyAt + k] == b.body[k]
    {
      CharAt(text, b.body, bodyAt, k);
    }
    BodyFits(text, b.body, bodyAt);
    assert forall k :: bodyAt <= k < bodyAt + i ==> text[k] == b.body[k - bodyAt];
    assert text[bodyAt - 1] == '{';
  }

  lemma BodyFits(text: string, body: string, bodyAt: nat)
    requires OccursAt(text, body, bodyAt)
    ensures bodyAt + |body| <= |text|
  {
  }

  /** The line before a brace inside a body is part of the body. */
  lemma DeclarationInBody(text: string, bodyAt: nat, body: string, ob: nat)
    requires OccursAt(text, body, bodyAt)
    requires body != "" && body[0] == '\n' && ob < |body| && body[ob] == '{'
    ensures bodyAt + ob < |text| && Declaration(text, bodyAt + ob) == Declaration(body, ob)
  {
    hide Strip;
    BodyFits(text, body, bodyAt);
    forall k | 0 <= k < |body|
      ensures text[bodyAt + k] == body[k]
    {
      CharAt(text, body, bodyAt, k);
    }
    var a := RFindChar(body, '\n', ob);
    assert a >= 0 && text[bodyAt + a] == '\n';
    assert forall k :: bodyAt + a < k < bodyAt + ob ==> text[k] == body[k - bodyAt];
    assert RFindChar(text, '\n', bodyAt + ob) == bodyAt + a;
    SliceAt(text, body, bodyAt, a + 1, ob);
  }

  /** An occurrence qualifies in the file exactly when it is a hit of its block. */
  lemma JudgedInBody(text: string, start: nat, b: Block, name: string, filter: string, i: nat)
    requires WellFormed(b) && OccursAt(text, PrintBlock(b), start) && OccursAt(b.body, Quoted(name), i)
    requires start == 0 || text[start - 1] == '\n'
    ensures var at := start + |b.kind| + 2 + i;
            at <= |text| && (Qualifies(text, at, filter) <==> HitAt(b, name, filter, i))
  {
    hide Contains, Declaration, OccursAt, PrintBlock, PlainKind, RFindChar;
    BodyFits(b.body, Quoted(name), i);
    OpenBraceInBody(text, start, b, i);
    OwnDeclaration(text, start, b);
    BodyAt(text, start, b);
    var ob := OpenBrace(b.body, i);
    if ob >= 0 {
      DeclarationInBody(text, start + |b.kind| + 2, b.body, ob);
    } else {
      assert ob == -1;
    }
  }

  /** An occurrence in an unambiguous block does not qualify. */
  lemma OccurrenceInOtherBlock(text: string, start: nat, b: Block, name: string, filter: string, i: nat)
    requires WellFormed(b) && OccursAt(text, PrintBlock(b), start) && Unambiguous(b, name, filter)
    requires start == 0 || text[start - 1] == '\n'
    requires Free(name, '{') && Free(name, '}')
    requires OccursAt(text, Quoted(name), i) && start <= i < start + |PrintBlock(b)|
    ensures !Qualifies(text, i, filter) && i + |Quoted(name)| <= start + |PrintBlock(b)|
  {
    hide HitAt, Qualifies, OccursAt, WellFormed;
    OccurrenceIsInBody(text, start, b, name, i);
    JudgedInBody(text, start, b, name, filter, i - (start + |b.kind| + 2));
  }

  lemma PrintFileSplit(bs: seq<Block>, t: nat)
    requires t < |bs|
    ensures var start := |PrintFile(bs[..t])|;
            OccursAt(PrintFile(bs), PrintBlock(bs[t]), start)
            && (start == 0 || PrintFile(bs)[start - 1] == '\n')
  {
    var text := PrintFile(bs);
    var start := |PrintFile(bs[..t])|;
    PrintFilePrefix(bs, t + 1);
    assert bs[..t + 1][..t] == bs[..t];
    if t > 0 {
      assert bs[..t][..t - 1] == bs[..t - 1];
      assert PrintFile(bs[..t]) == PrintFile(bs[..t - 1]) + PrintBlock(bs[t - 1]);
      assert PrintFile(bs[..t])[start - 1] == '\n';
    }
  }

  lemma PrintFilePrefix(bs: seq<Block>, t: nat)
    requires t <= |bs|
    ensures PrintFile(bs[..t]) <= PrintFile(bs)
  {
    hide PrintBlock;
    if t == |bs| {
      assert bs[..t] == bs;
    } else {
      var most := bs[..|bs| - 1];
      PrintFilePrefix(most, t);
      assert most[..t] == bs[..t];
      assert PrintFile(bs) == PrintFile(most) + PrintBlock(bs[|bs| - 1]);
    }
  }

  /** Every occurrence in the blocks before block t fails to qualify and ends before it. */
  lemma EarlierOccurrences(bs: seq<Block>, t: nat, name: string, filter: string, i: nat)
    requires t <= |bs| && Free(name, '{') && Free(name, '}')
    requires forall j :: 0 <= j < t ==> WellFormed(bs[j]) && Unambiguous(bs[j], name, filter)
    requires OccursAt(PrintFile(bs), Quoted(name), i) && i < |PrintFile(bs[..t])|
    ensures !Qualifies(PrintFile(bs), i, filter) && i + |Quoted(name)| <= |PrintFile(bs[..t])|
    decreases t
  {
    assert bs[..t][..t - 1] == bs[..t - 1];
    PrintFileSplit(bs, t - 1);
    var start := |PrintFile(bs[..t - 1])|;
    if i < start {
      EarlierOccurrences(bs, t - 1, name, filter, i);
    } else {
      OccurrenceInOtherBlock(PrintFile(bs), start, bs[t - 1], name, filter, i);
    }
  }

  ghost predicate AllFail(text: string, needle: string, filter: string, start: nat, idx: nat) {
    forall i :: start <= i < idx && OccursAt(text, needle, i) ==>
      !Qualifies(text, i, filter) && i + |needle| <= idx
  }

  /** Once all earlier occurrences fail, the scan arrives. */
  lemma {:induction false} ScanArrives(text: string, needle: string, filter: string, start: nat, idx: nat)
    requires needle != "" && start <= idx && OccursAt(text, needle, idx) && Qualifies(text, idx, filter)
    requires AllFail(text, needle, filter, start, idx)
    ensures FirstQualifying(text, needle, filter, start) == idx
    decreases |text| - start
  {
    hide Qualifies, OccursAt, Find;
    var f := Find(text, needle, start);
    assert start <= f <= idx;
    if f != idx {
      ScanArrives(text, needle, filter, f + |needle|, idx);
    }
  }

  /** Every occurrence before a block's first hit fails. */
  lemma AllFailBefore(bs: seq<Block>, j: nat, name: string, filter: string, i: nat)
    requires j < |bs| && Free(name, '{') && Free(name, '}')
    requires forall k :: 0 <= k < j ==> WellFormed(bs[k]) && Unambiguous(bs[k], name, filter)
    requires WellFormed(bs[j]) && FirstHit(bs[j], name, filter, i)
    ensures AllFail(PrintFile(bs), Quoted(name), filter, 0, |PrintFile(bs[..j])| + |bs[j].kind| + 2 + i)
  {
    hide Qualifies, PrintFile, HitAt, Unambiguous, WellFormed, OccursAt;
    var text, start := PrintFile(bs), |PrintFile(bs[..j])|;
    var at := start + |bs[j].kind| + 2 + i;
    PrintFileSplit(bs, j);
    HitIsInBody(bs[j], name, filter, i);
    forall p | 0 <= p < at && OccursAt(text, Quoted(name), p)
      ensures !Qualifies(text, p, filter) && p + |Quoted(name)| <= at
    {
      if p < start {
        EarlierOccurrences(bs, j, name, filter, p);
      } else {
        OccurrenceIsInBody(text, start, bs[j], name, p);
        JudgedInBody(text, start, bs[j], name, filter, p - (start + |bs[j].kind| + 2));
      }
    }
  }

  lemma HitIsInBody(b: Block, name: string, filter: string, i: nat)
    requires HitAt(b, name, filter, i)
    ensures OccursAt(b.body, Quoted(name), i) && i + |Quoted(name)| <= |b.body|
  {
    hide Contains;
  }

  /** Where the scan ends: at the first hit of the first block that has one. */
  lemma ScanEndsAt(bs: seq<Block>, j: nat, name: string, filter: string, i: nat)
    requires j < |bs| && Free(name, '{') && Free(name, '}')
    requires forall k :: 0 <= k < j ==> WellFormed(bs[k]) && Unambiguous(bs[k], name, filter)
    requires WellFormed(bs[j]) && FirstHit(bs[j], name, filter, i)
    ensures FirstQualifying(PrintFile(bs), Quoted(name), filter, 0) ==
            |PrintFile(bs[..j])| + |bs[j].kind| + 2 + i
    ensures |PrintFile(bs[..j])| + |bs[j].kind| + 2 + i < |PrintFile(bs[..j + 1])|
  {
    hide *;
    var text, start, b := PrintFile(bs), |PrintFile(bs[..j])|, bs[j];
    PrintFileSplit(bs, j);
    AllFailBefore(bs, j, name, filter, i);
    FirstHitIsHit(b, name, filter, i);
    HitIsInBody(b, name, filter, i);
    OccurrenceOfBody(text, start, b, Quoted(name), i);
    JudgedInBody(text, start, b, name, filter, i);
    QuotedIsSome(name);
    ScanArrives(text, Quoted(name), filter, 0, start + |b.kind| + 2 + i);
    OneMoreBlock(bs, j);
    BlockParts(b);
  }

  lemma QuotedIsSome(name: string)
    ensures Quoted(name) != ""
  {
  }

  lemma OneMoreBlock(bs: seq<Block>, j: nat)
    requires j < |bs|
    ensures |PrintFile(bs[..j + 1])| == |PrintFile(bs[..j])| + |PrintBlock(bs[j])|
  {
    assert bs[..j + 1][..j] == bs[..j];
  }

  lemma FoundAt(text: string, name: string, filter: string, idx: nat)
    requires FirstQualifying(text, Quoted(name), filter, 0) == idx
    ensures idx <= |text|
    ensures var ob := OpenBrace(text, idx);
            ob >= 0 && NamedBlock(text, name, filter) == Some(text[ob..MatchEnd(text, ob, '{', '}')])
  {
    hide FirstQualifying;
  }

  lemma OwnBraceMatches(text: string, start: nat, b: Block)
    requires OccursAt(text, PrintBlock(b), start) && Nested(b.body, '{', '}')
    ensures var ob := start + |b.kind| + 1;
            && ob < |text| && text[ob] == '{'
            && text[ob..MatchEnd(text, ob, '{', '}')] == BlockText(b)
  {
    var ob := start + |b.kind| + 1;
    BodyAt(text, start, b);
    assert text[ob..ob + |b.body| + 2] == BlockText(b) == ['{'] + b.body + ['}'];
    BracketedMatches(text, ob, b.body, '{', '}');
  }

  /** A group that closes within the body is matched there. */
  lemma InnerBraceMatches(text: string, bodyAt: nat, body: string, ob: nat)
    requires OccursAt(text, body, bodyAt) && ob < |body| && body[ob] == '{'
    requires Balance(body[ob..MatchEnd(body, ob, '{', '}')], '{', '}') == 0
    ensures bodyAt + ob < |text| && text[bodyAt + ob] == '{'
    ensures text[bodyAt + ob..MatchEnd(text, bodyAt + ob, '{', '}')] == body[ob..MatchEnd(body, ob, '{', '}')]
  {
    var e := MatchEnd(body, ob, '{', '}');
    var at := bodyAt + ob;
    BodyFits(text, body, bodyAt);
    CharAt(text, body, bodyAt, ob);
    hide OccursAt, Balance;
    SliceAt(text, body, bodyAt, ob, e);
    forall k | at < k < bodyAt + e
      ensures Balance(text[at..k], '{', '}') > 0
    {
      SliceAt(text, body, bodyAt, ob, k - bodyAt);
    }
    MatchEndIsUnique(text, at, bodyAt + e, MatchEnd(text, at, '{', '}'), '{', '}');
  }

  /** Which block a lookup returns, in any printed file: the first block with a hit decides, even
      when it is not the one named, as an interface that lists the name in its imports or a
      defaults block whose kind contains the wanted text. If the hit stands under the block's
      own brace the whole block is returned, else the group it stands in. */
  lemma FirstHitWins(bs: seq<Block>, j: nat, name: string, filter: string, i: nat)
    requires j < |bs| && Free(name, '{') && Free(name, '}')
    requires forall k :: 0 <= k < j ==> WellFormed(bs[k]) && Unambiguous(bs[k], name, filter)
    requires WellFormed(bs[j]) && FirstHit(bs[j], name, filter, i)
    ensures i <= |bs[j].body|
    ensures var body, ob := bs[j].body, OpenBrace(bs[j].body, i);
            && (ob < 0 && Nested(body, '{', '}') ==>
                  NamedBlock(PrintFile(bs), name, filter) == Some(BlockText(bs[j])))
            && (ob >= 0 && Balance(body[ob..MatchEnd(body, ob, '{', '}')], '{', '}') == 0 ==>
                  NamedBlock(PrintFile(bs), name, filter) == Some(body[ob..MatchEnd(body, ob, '{', '}')]))
  {
    hide *;
    var text, start, b := PrintFile(bs), |PrintFile(bs[..j])|, bs[j];
    var at := start + |b.kind| + 2 + i;
    PrintFileSplit(bs, j);
    ScanEndsAt(bs, j, name, filter, i);
    FirstHitIsHit(b, name, filter, i);
    HitIsInBody(b, name, filter, i);
    var ob := OpenBrace(b.body, i);
    OpenBraceInBody(text, start, b, i);
    BodyAt(text, start, b);
    FoundAt(text, name, filter, at);
    OpenBraceIs(b.body, i);
    MatchEndIsWithin(b.body);
    if ob < 0 {
      if Nested(b.body, '{', '}') {
        OwnBraceMatches(text, start, b);
      }
    } else if Balance(b.body[ob..MatchEnd(b.body, ob, '{', '}')], '{', '}') == 0 {
      InnerBraceMatches(text, start + |b.kind| + 2, b.body, ob);
    }
  }

  lemma FirstHitIsHit(b: Block, name: string, filter: string, i: nat)
    requires FirstHit(b, name, filter, i)
    ensures HitAt(b, name, filter, i)
  {
  }

  lemma OpenBraceIs(body: string, i: nat)
    requires i <= |body|
    ensures var ob := OpenBrace(body, i); -1 <= ob < i && (ob >= 0 ==> body[ob] == '{')
  {
  }

  lemma MatchEndIsWithin(s: string)
    ensures forall ob :: 0 <= ob < |s| && s[ob] == '{' ==> ob < MatchEnd(s, ob, '{', '}') <= |s|
  {
  }

  /** A block's own name, which it prints first, is its first hit. */
  lemma OwnNameIsFirstHit(b: Block, name: string, filter: string)
    requires NamedFirst(b, name) && Contains(b.kind, filter)
    ensures FirstHit(b, name, filter, |NAME_FIELD|) && OpenBrace(b.body, |NAME_FIELD|) == -1
  {
    var q := |NAME_FIELD|;
    LeadIsPlain(b, name);
    hide Contains, NamedFirst, OccursAt;
    assert OpenBrace(b.body, q) == -1;
    assert HitAt(b, name, filter, q);
    forall k | 0 <= k < q
      ensures !OccursAt(b.body, Quoted(name), k)
    {
      if OccursAt(b.body, Quoted(name), k) {
        CharAt(b.body, Quoted(name), k, 0);
      }
    }
  }

  lemma LeadIsPlain(b: Block, name: string)
    requires NamedFirst(b, name)
    ensures OccursAt(b.body, Quoted(name), |NAME_FIELD|) && |NAME_FIELD| <= |b.body|
    ensures forall k :: 0 <= k < |NAME_FIELD| ==> b.body[k] != '"' && b.body[k] != '{'
  {
    var n, q := NAME_FIELD + Quoted(name), |NAME_FIELD|;
    assert b.body[q..|n|] == b.body[..|n|][q..] == n[q..] == Quoted(name);
    NameFieldIsPlain();
    forall k | 0 <= k < q
      ensures b.body[k] != '"' && b.body[k] != '{'
    {
      assert b.body[k] == n[k] == NAME_FIELD[k];
    }
  }

  lemma NameFieldIsPlain()
    ensures forall k :: 0 <= k < |NAME_FIELD| ==> NAME_FIELD[k] != '"' && NAME_FIELD[k] != '{'
  {
  }

  /** Overlapping quotations of a name lie under the same brace. */
  lemma OverlapSharesBrace(body: string, name: string, k: nat, i: nat)
    requires OccursAt(body, Quoted(name), k) && k < i < k + |Quoted(name)| && Free(name, '{')
    ensures i <= |body| && OpenBrace(body, k) == OpenBrace(body, i)
  {
    forall p | k <= p < i
      ensures body[p] != '{'
    {
      NameHoldsNot(body, name, k, '{', p);
    }
  }

  /** So the least hit, where there is one, is the first hit of the scan. */
  lemma AmbiguousHasFirstHit(b: Block, name: string, filter: string) returns (i: nat)
    requires !Unambiguous(b, name, filter) && Free(name, '{')
    ensures FirstHit(b, name, filter, i)
  {
    i := LeastHit(b, name, filter);
    forall k | 0 <= k < i && OccursAt(b.body, Quoted(name), k)
      ensures k + |Quoted(name)| <= i
    {
      if i < k + |Quoted(name)| {
        OverlapSharesBrace(b.body, name, k, i);
        SameBraceSameHit(b, name, filter, i, k);
      }
    }
  }

  lemma SameBraceSameHit(b: Block, name: string, filter: string, i: nat, k: nat)
    requires HitAt(b, name, filter, i) && OccursAt(b.body, Quoted(name), k)
    requires i <= |b.body| && k <= |b.body| && OpenBrace(b.body, k) == OpenBrace(b.body, i)
    ensures HitAt(b, name, filter, k)
  {
    hide Contains;
  }

  lemma LeastHit(b: Block, name: string, filter: string) returns (i: nat)
    requires !Unambiguous(b, name, filter)
    ensures HitAt(b, name, filter, i) && forall k :: 0 <= k < i ==> !HitAt(b, name, filter, k)
  {
    hide HitAt;
    var j: nat :| j < |b.body| && HitAt(b, name, filter, j);
    i := 0;
    while !HitAt(b, name, filter, i)
      invariant i <= j && forall k :: 0 <= k < i ==> !HitAt(b, name, filter, k)
      decreases j - i
    {
      i := i + 1;
    }
  }

  /** The first block a scan can end in. */
  lemma FirstAmbiguous(bs: seq<Block>, t: nat, name: string, filter: string) returns (j: nat)
    requires t <= |bs| && exists k :: 0 <= k < t && !Unambiguous(bs[k], name, filter)
    ensures j < t && !Unambiguous(bs[j], name, filter)
    ensures forall k :: 0 <= k < j ==> Unambiguous(bs[k], name, filter)
  {
    hide Unambiguous;
    j := 0;
    while Unambiguous(bs[j], name, filter)
      invariant j < t && forall k :: 0 <= k < j ==> Unambiguous(bs[k], name, filter)
      decreases t - j
    {
      j := j + 1;
    }
  }

  lemma ShorterFile(bs: seq<Block>, j: nat, t: nat)
    requires j <= t <= |bs|
    ensures |PrintFile(bs[..j])| <= |PrintFile(bs[..t])|
  {
    PrintFilePrefix(bs[..t], j);
    assert bs[..t][..j] == bs[..j];
  }

  /** Exactly when a lookup ends in the block it names: no block before that one has a hit. */
  lemma LookupEndsInTargetIff(bs: seq<Block>, t: nat, name: string, filter: string)
    requires t < |bs| && NamedFirst(bs[t], name) && Contains(bs[t].kind, filter)
    requires Free(name, '{') && Free(name, '}')
    requires forall j :: 0 <= j <= t ==> WellFormed(bs[j])
    ensures FirstQualifying(PrintFile(bs), Quoted(name), filter, 0) ==
            |PrintFile(bs[..t])| + |bs[t].kind| + 2 + |NAME_FIELD|
            <==> forall j :: 0 <= j < t ==> Unambiguous(bs[j], name, filter)
  {
    hide *;
    if forall j :: 0 <= j < t ==> Unambiguous(bs[j], name, filter) {
      OwnNameIsFirstHit(bs[t], name, filter);
      ScanEndsAt(bs, t, name, filter, |NAME_FIELD|);
    } else {
      var j := FirstAmbiguous(bs, t, name, filter);
      var i := AmbiguousHasFirstHit(bs[j], name, filter);
      ScanEndsAt(bs, j, name, filter, i);
      ShorterFile(bs, j + 1, t);
    }
  }

  /** Exactly when it finds nothing: no block has a hit. */
  lemma LookupFailsIff(bs: seq<Block>, name: string, filter: string)
    requires Free(name, '{') && Free(name, '}') && forall j :: 0 <= j < |bs| ==> WellFormed(bs[j])
    ensures NamedBlock(PrintFile(bs), name, filter) == None <==>
            forall j :: 0 <= j < |bs| ==> Unambiguous(bs[j], name, filter)
  {
    hide *;
    if forall j :: 0 <= j < |bs| ==> Unambiguous(bs[j], name, filter) {
      PrintedLookupFails(bs, name, filter);
    } else {
      var j := FirstAmbiguous(bs, |bs|, name, filter);
      var i := AmbiguousHasFirstHit(bs[j], name, filter);
      ScanEndsAt(bs, j, name, filter, i);
      FoundIsSome(PrintFile(bs), name, filter);
    }
  }

  lemma FoundIsSome(text: string, name: string, filter: string)
    requires FirstQualifying(text, Quoted(name), filter, 0) >= 0
    ensures NamedBlock(text, name, filter).Some?
  {
    hide FirstQualifying;
  }

  /** Looking a name up in a printed file returns exactly the block it names, wherever that block
      stands, provided the lookup cannot end in an earlier block. */
  lemma PrintedLookup(bs: seq<Block>, t: nat, name: string, filter: string)
    requires t < |bs| && WellFormed(bs[t]) && NamedFirst(bs[t], name) && Contains(bs[t].kind, filter)
    requires Nested(bs[t].body, '{', '}') && Free(name, '{') && Free(name, '}')
    requires forall j :: 0 <= j < t ==> WellFormed(bs[j]) && Unambiguous(bs[j], name, filter)
    ensures NamedBlock(PrintFile(bs), name, filter) == Some(BlockText(bs[t]))
  {
    hide *;
    OwnNameIsFirstHit(bs[t], name, filter);
    FirstHitWins(bs, t, name, filter, |NAME_FIELD|);
  }

  /** And it finds nothing when it cannot end in any block. */
  lemma PrintedLookupFails(bs: seq<Block>, name: string, filter: string)
    requires Free(name, '{') && Free(name, '}')
    requires forall j :: 0 <= j < |bs| ==> WellFormed(bs[j]) && Unambiguous(bs[j], name, filter)
    ensures NamedBlock(PrintFile(bs), name, filter) == None
  {
    var text := PrintFile(bs);
    hide Qualifies, PrintFile, FirstQualifying, Contains, Unambiguous, WellFormed;
    var k := PicksFirstQualifying(text, Quoted(name), filter, 0);
    var found := Scanned(text, Quoted(name), 0);
    if k < |found| {
      assert bs[..|bs|] == bs;
      EarlierOccurrences(bs, |bs|, name, filter, found[k]);
    }
  }
}
