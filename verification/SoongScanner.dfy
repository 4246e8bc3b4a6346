/** Finding a named Soong block by its quoted name (verify_aidl_versions.py,
    _extract_named_block): search for the name, go back to the nearest opening brace, look at
    the text before it on its line, and cut forward to the matching brace. */
module SoongScanner {
  import opened Text
  import opened Brackets

  /** The nearest opening brace before an offset, or -1. */
  function OpenBrace(text: string, idx: nat): int
    requires idx <= |text|
  {
    RFindChar(text, '{', idx)
  }

  /** The text before a brace on its own line, stripped. */
  function Declaration(text: string, brace: nat): string
    requires brace < |text|
  {
    Strip(text[RFindChar(text, '\n', brace) + 1..brace])
  }

  predicate Qualifies(text: string, idx: nat, filter: string)
    requires idx <= |text|
  {
    var ob := OpenBrace(text, idx);
    ob >= 0 && Contains(Declaration(text, ob), filter)
  }

  /** The occurrences a left-to-right, non-overlapping search sees from `start` on. */
  ghost function Scanned(text: string, needle: string, start: nat): (found: seq<nat>)
    requires needle != ""
    ensures forall k :: 0 <= k < |found| ==> start <= found[k] && OccursAt(text, needle, found[k])
    decreases |text| - start
  {
    var idx := Find(text, needle, start);
    if idx < 0 then [] else [idx] + Scanned(text, needle, idx + |needle|)
  }

  function FirstQualifying(text: string, needle: string, filter: string, start: nat): (idx: int)
    requires needle != ""
    ensures idx == -1 || (start <= idx && OccursAt(text, needle, idx) && OpenBrace(text, idx) >= 0)
    decreases |text| - start
  {
    var idx := Find(text, needle, start);
    if idx < 0 then -1
    else if Qualifies(text, idx, filter) then idx
    else FirstQualifying(text, needle, filter, idx + |needle|)
  }

  function BlockAt(text: string, idx: int): Option<string>
    requires idx == -1 || (0 <= idx <= |text| && OpenBrace(text, idx) >= 0)
  {
    if idx == -1 then None
    else
      var ob := OpenBrace(text, idx);
      Some(text[ob..MatchEnd(text, ob, '{', '}')])
  }

  function NamedBlock(text: string, name: string, filter: string): Option<string> {
    BlockAt(text, FirstQualifying(text, Quoted(name), filter, 0))
  }

  /** One turn of the search. */
  lemma ScanStep(text: string, needle: string, filter: string, start: nat)
    requires needle != ""
    ensures var idx := Find(text, needle, start);
            FirstQualifying(text, needle, filter, start) ==
            if idx < 0 then -1
            else if OpenBrace(text, idx) >= 0 && Contains(Declaration(text, OpenBrace(text, idx)), filter) then idx
            else FirstQualifying(text, needle, filter, idx + |needle|)
  {
    hide Contains, Declaration, Find;
  }

  method ExtractNamedBlock(text: string, fullName: string, declFilter: string) returns (r: Option<string>)
    ensures r == NamedBlock(text, fullName, declFilter)
  {
    hide Contains, Declaration, Find, FirstQualifying, OccursAt;
    var needle := Quoted(fullName);
    var searchFrom := 0;
    while true
      invariant FirstQualifying(text, needle, declFilter, 0) ==
                FirstQualifying(text, needle, declFilter, searchFrom)
      decreases |text| - searchFrom
    {
      ScanStep(text, needle, declFilter, searchFrom);
      var idx := Find(text, needle, searchFrom);
      if idx < 0 {
        return None;
      }
      var openBrace := RFindChar(text, '{', idx);
      if openBrace < 0 {
        searchFrom := idx + |needle|;
        continue;
      }
      var decl := Declaration(text, openBrace);
      if !Contains(decl, declFilter) {
        searchFrom := idx + |needle|;
        continue;
      }
      var j, _ := FindMatchEnd(text, openBrace, '{', '}');
      return Some(text[openBrace..j]);
    }
  }

  /** The scan picks the first qualifying occurrence, and finds nothing exactly when no scanned
      occurrence qualifies. */
  lemma {:induction false} PicksFirstQualifying(text: string, needle: string, filter: string, start: nat)
      returns (k: nat)
    requires needle != ""
    ensures var found := Scanned(text, needle, start);
            && k <= |found|
            && (forall i :: 0 <= i < k ==> !Qualifies(text, found[i], filter))
            && (k < |found| ==> Qualifies(text, found[k], filter))
            && FirstQualifying(text, needle, filter, start) == (if k < |found| then found[k] else -1)
    decreases |text| - start
  {
    hide Qualifies, Find, OccursAt;
    k := 0;
    var idx := Find(text, needle, start);
    if idx >= 0 && !Qualifies(text, idx, filter) {
      k := PicksFirstQualifying(text, needle, filter, idx + |needle|);
      var later := Scanned(text, needle, idx + |needle|);
      assert Scanned(text, needle, start) == [idx] + later;
      k := k + 1;
    }
  }

  /** The slice runs from the nearest brace to its shortest balanced end. It covers the name
      found exactly when no closing brace stands between the two; otherwise it ends before the
      name, so the block returned does not hold the name it was looked up by. */
  lemma BlockHoldsNameIff(text: string, name: string, idx: nat)
    requires Free(name, '{') && Free(name, '}')
    requires OccursAt(text, Quoted(name), idx) && OpenBrace(text, idx) >= 0
    ensures var ob := OpenBrace(text, idx);
            var e := MatchEnd(text, ob, '{', '}');
            if Free(text[ob..idx], '}') then idx + |Quoted(name)| <= e else e <= idx
  {
    var ob := OpenBrace(text, idx);
    var e := MatchEnd(text, ob, '{', '}');
    var stop := idx + |Quoted(name)|;
    assert forall i :: idx <= i < stop ==> text[i] == Quoted(name)[i - idx];
    if Free(text[ob..idx], '}') {
      assert forall i :: ob < i < idx ==> text[i] == text[ob..idx][i - ob];
      if e < stop {
        NoBraceKeepsCount(text, ob, e);
      }
    } else {
      var k :| 0 <= k < |text[ob..idx]| && text[ob..idx][k] == '}';
      assert text[ob + k] == '}';
      FirstCloserEnds(text, ob, ob + k);
    }
  }

  lemma NoBraceKeepsCount(text: string, ob: nat, e: nat)
    requires ob < e <= |text| && text[ob] == '{'
    requires forall i :: ob < i < e ==> text[i] != '{' && text[i] != '}'
    ensures Balance(text[ob..e], '{', '}') == 1
    decreases e
  {
    if e == ob + 1 {
      assert text[ob..e] == ['{'];
      OneCharBalance('{', '{', '}');
    } else {
      NoBraceKeepsCount(text, ob, e - 1);
      BalanceNext(text, ob, e - 1, '{', '}');
    }
  }

  /** With no opening brace in between, the first closing brace already ends the slice. */
  lemma FirstCloserEnds(text: string, ob: nat, c: nat)
    requires ob < c < |text| && text[ob] == '{' && text[c] == '}'
    requires forall i :: ob < i < c ==> text[i] != '{'
    ensures MatchEnd(text, ob, '{', '}') <= c + 1
    decreases c
  {
    if d :| ob < d < c && text[d] == '}' {
      FirstCloserEnds(text, ob, d);
    } else {
      NoBraceKeepsCount(text, ob, c);
      BalanceNext(text, ob, c, '{', '}');
      assert Balance(text[ob..c + 1], '{', '}') == 0;
    }
  }
}
