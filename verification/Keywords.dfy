/** Whole-word keyword matches, in the original text. */
module Keywords {
  import opened Options
  import opened TextSearch
  import opened Fold

  /** Not next to a word unit on either side. */
  predicate WholeWord(folded: Text, i: nat, len: nat, word: CodeUnit -> bool) {
    && (0 < i <= |folded| ==> !word(folded[i - 1]))
    && (i + len < |folded| ==> !word(folded[i + len]))
  }

  function WholeWords(folded: Text, at: seq<nat>, len: nat, offsets: seq<nat>, word: CodeUnit -> bool): seq<Range>
    requires forall k :: 0 <= k < |at| ==> at[k] + len < |offsets|
  {
    if at == [] then [] else
      var i := at[|at| - 1];
      WholeWords(folded, at[..|at| - 1], len, offsets, word)
      + if WholeWord(folded, i, len, word) then [(offsets[i], offsets[i + len])] else []
  }

  /** Every occurrence, overlapping ones included: the scan moves on by one. */
  function Occurring(folded: Text, keyword: Text): (at: seq<nat>)
    requires keyword != []
    ensures forall k :: 0 <= k < |at| ==> at[k] + |keyword| <= |folded|
  {
    ScanVisits(folded, keyword, 0, 1);
    assert forall k :: 0 <= k < |Scan(folded, keyword, 0, 1)| ==>
        OccursAt(folded, keyword, Scan(folded, keyword, 0, 1)[k]);
    Scan(folded, keyword, 0, 1)
  }

  /** Every folded keyword has something to look for. */
  predicate Searchable(keywords: seq<Text>) { forall i :: 0 <= i < |keywords| ==> keywords[i] != [] }

  function RangesOf(folded: Text, offsets: seq<nat>, keywords: seq<Text>, word: CodeUnit -> bool): seq<Range>
    requires |offsets| == |folded| + 1 && Searchable(keywords)
  {
    if keywords == [] then [] else
      var k := keywords[|keywords| - 1];
      RangesOf(folded, offsets, keywords[..|keywords| - 1], word)
      + WholeWords(folded, Occurring(folded, k), |k|, offsets, word)
  }

  function KeywordMatches(text: Text, keywords: seq<Text>, fold: Text -> Text, word: CodeUnit -> bool): seq<Range>
    requires Searchable(keywords)
  {
    OffsetTable(text, 0, fold);
    RangesOf(FoldFrom(text, 0, fold), OffsetsFrom(text, 0, fold), keywords, word)
  }

  method PickWhole(folded: Text, at: seq<nat>, len: nat, offsets: seq<nat>, word: CodeUnit -> bool)
    returns (ranges: seq<Range>)
    requires forall k :: 0 <= k < |at| ==> at[k] + len < |offsets|
    ensures ranges == WholeWords(folded, at, len, offsets, word)
  {
    ranges := [];
    var k := 0;
    while k < |at|
      invariant k <= |at| && ranges == WholeWords(folded, at[..k], len, offsets, word)
    {
      assert at[..k + 1][..k] == at[..k];
      if WholeWord(folded, at[k], len, word) {
        ranges := ranges + [(offsets[at[k]], offsets[at[k] + len])];
      }
      k := k + 1;
    }
    assert at[..k] == at;
  }

  /** The search for some keyword never ends. */
  ghost predicate Hangs(text: Text, keywords: seq<Text>, fold: Text -> Text) {
    exists k <- keywords :: !Ends(FoldFrom(text, 0, fold), k, 1)
  }

  /** It hangs on every text, or on none: exactly when a folded keyword is empty. */
  lemma HangsIff(text: Text, keywords: seq<Text>, fold: Text -> Text)
    ensures Hangs(text, keywords, fold) <==> !Searchable(keywords)
  {
    var folded := FoldFrom(text, 0, fold);
    forall k: Text ensures Ends(folded, k, 1) <==> k != [] { SearchEndsIff(folded, k, 1); }
    if !Searchable(keywords) {
      var i :| 0 <= i < |keywords| && keywords[i] == [];
      assert keywords[i] in keywords;
    }
  }

  method KeywordPlaces(folded: Text, keyword: Text, offsets: seq<nat>, word: CodeUnit -> bool)
    returns (ranges: Option<seq<Range>>)
    requires |offsets| == |folded| + 1
    ensures ranges.None? <==> keyword == []
    ensures ranges.Some? ==> ranges.value == WholeWords(folded, Occurring(folded, keyword), |keyword|, offsets, word)
  {
    SearchEndsIff(folded, keyword, 1);
    var at := Occurrences(folded, keyword, 1);
    if at.None? {
      return None;
    }
    assert at.value == Occurring(folded, keyword);
    var whole := PickWhole(folded, at.value, |keyword|, offsets, word);
    return Some(whole);
  }

  lemma OneKeywordMore(folded: Text, offsets: seq<nat>, keywords: seq<Text>, word: CodeUnit -> bool, n: nat)
    requires |offsets| == |folded| + 1 && n < |keywords| && Searchable(keywords[..n]) && keywords[n] != []
    ensures Searchable(keywords[..n + 1])
    ensures RangesOf(folded, offsets, keywords[..n + 1], word)
         == RangesOf(folded, offsets, keywords[..n], word)
            + WholeWords(folded, Occurring(folded, keywords[n]), |keywords[n]|, offsets, word)
  {
    assert keywords[..n + 1][..n] == keywords[..n];
  }

  /** The ranges, or nothing where a search never ends. */
  method KeywordRanges(text: Text, keywords: seq<Text>, fold: Text -> Text, word: CodeUnit -> bool)
    returns (ranges: Option<seq<Range>>)
    ensures ranges.None? <==> Hangs(text, keywords, fold)
    ensures ranges.Some? ==> Searchable(keywords) && ranges.value == KeywordMatches(text, keywords, fold, word)
  {
    hide Hangs, WholeWords, Occurring, RangesOf;
    HangsIff(text, keywords, fold);
    if keywords == [] {
      NoRanges(text, fold, word);
      return Some([]);
    }
    var folded, offsets := FoldWithOffsets(text, fold);
    var found := [];
    var n := 0;
    NoRanges(text, fold, word);
    assert keywords[..0] == [];
    while n < |keywords|
      invariant n <= |keywords| && Searchable(keywords[..n])
      invariant found == RangesOf(folded, offsets, keywords[..n], word)
    {
      var whole := KeywordPlaces(folded, keywords[n], offsets, word);
      if whole.None? {
        return None;
      }
      OneKeywordMore(folded, offsets, keywords, word, n);
      found := found + whole.value;
      n := n + 1;
    }
    assert keywords[..n] == keywords;
    return Some(found);
  }

  lemma NoRanges(text: Text, fold: Text -> Text, word: CodeUnit -> bool)
    ensures KeywordMatches(text, [], fold, word) == []
  {
  }

  lemma {:induction false} WholeWordsFit(
    folded: Text, at: seq<nat>, len: nat, offsets: seq<nat>, word: CodeUnit -> bool, limit: nat)
    requires (forall k :: 0 <= k < |at| ==> at[k] + len < |offsets|) && NonDecreasing(offsets)
    requires forall k :: 0 <= k < |offsets| ==> offsets[k] <= limit
    ensures forall r <- WholeWords(folded, at, len, offsets, word) :: r.0 <= r.1 <= limit
  {
    if at != [] { WholeWordsFit(folded, at[..|at| - 1], len, offsets, word, limit); }
  }

  lemma {:induction false} RangesFit(
    folded: Text, offsets: seq<nat>, keywords: seq<Text>, word: CodeUnit -> bool, limit: nat)
    requires |offsets| == |folded| + 1 && NonDecreasing(offsets) && Searchable(keywords)
    requires forall k :: 0 <= k < |offsets| ==> offsets[k] <= limit
    ensures forall r <- RangesOf(folded, offsets, keywords, word) :: r.0 <= r.1 <= limit
  {
    if keywords != [] {
      var k := keywords[|keywords| - 1];
      RangesFit(folded, offsets, keywords[..|keywords| - 1], word, limit);
      WholeWordsFit(folded, Occurring(folded, k), |k|, offsets, word, limit);
    }
  }

  /** What is found lies within the text, whatever folding does. */
  lemma KeywordMatchesFit(text: Text, keywords: seq<Text>, fold: Text -> Text, word: CodeUnit -> bool)
    requires Searchable(keywords)
    ensures forall r <- KeywordMatches(text, keywords, fold, word) :: r.0 <= r.1 <= |text|
  {
    OffsetTable(text, 0, fold);
    var offsets := OffsetsFrom(text, 0, fold);
    RangesFit(FoldFrom(text, 0, fold), offsets, keywords, word, |text|);
  }

  lemma {:induction false} WholeWordsAre(
    folded: Text, at: seq<nat>, len: nat, offsets: seq<nat>, word: CodeUnit -> bool, r: Range)
    requires forall k :: 0 <= k < |at| ==> at[k] + len < |offsets|
    ensures r in WholeWords(folded, at, len, offsets, word)
       <==> exists i <- at ::
              i + len < |offsets| && WholeWord(folded, i, len, word) && r == (offsets[i], offsets[i + len])
  {
    if at != [] {
      var init, last := at[..|at| - 1], at[|at| - 1];
      WholeWordsAre(folded, init, len, offsets, word, r);
      assert at == init + [last];
    }
  }

  /** A keyword stands at that place of the folded text, with no word unit next to it. */
  predicate MatchAt(
    folded: Text, offsets: seq<nat>, word: CodeUnit -> bool, keyword: Text, r: Range, i: nat)
  {
    && OccursAt(folded, keyword, i) && i + |keyword| < |offsets|
    && (i > 0 ==> !word(folded[i - 1])) && (i + |keyword| < |folded| ==> !word(folded[i + |keyword|]))
    && r == (offsets[i], offsets[i + |keyword|])
  }

  ghost predicate IsMatch(folded: Text, offsets: seq<nat>, word: CodeUnit -> bool, keyword: Text, r: Range) {
    exists i: nat :: MatchAt(folded, offsets, word, keyword, r, i)
  }

  /** Moving on by one, the scan visits every occurrence. */
  lemma OccurringIsAll(folded: Text, keyword: Text, i: nat)
    requires keyword != []
    ensures i in Occurring(folded, keyword) <==> OccursAt(folded, keyword, i)
  {
    ScanVisits(folded, keyword, 0, 1);
    if OccursAt(folded, keyword, i) { ScanCovers(folded, keyword, 0, 1, i); }
  }

  lemma MatchIsFound(
    folded: Text, offsets: seq<nat>, word: CodeUnit -> bool, keyword: Text, r: Range, i: nat)
    requires |offsets| == |folded| + 1 && keyword != [] && MatchAt(folded, offsets, word, keyword, r, i)
    ensures r in WholeWords(folded, Occurring(folded, keyword), |keyword|, offsets, word)
  {
    hide WholeWords, OccursAt;
    OccurringIsAll(folded, keyword, i);
    WholeWordsAre(folded, Occurring(folded, keyword), |keyword|, offsets, word, r);
    hide Occurring;
    assert WholeWord(folded, i, |keyword|, word);
  }

  lemma FoundIsMatch(folded: Text, offsets: seq<nat>, word: CodeUnit -> bool, keyword: Text, r: Range)
    requires |offsets| == |folded| + 1 && keyword != []
    requires r in WholeWords(folded, Occurring(folded, keyword), |keyword|, offsets, word)
    ensures IsMatch(folded, offsets, word, keyword, r)
  {
    hide WholeWords, OccursAt, Occurring;
    var at := Occurring(folded, keyword);
    WholeWordsAre(folded, at, |keyword|, offsets, word, r);
    var i :| i in at && i + |keyword| < |offsets| && WholeWord(folded, i, |keyword|, word)
      && r == (offsets[i], offsets[i + |keyword|]);
    OccurringIsAll(folded, keyword, i);
    assert MatchAt(folded, offsets, word, keyword, r, i);
  }

  lemma KeywordFinds(folded: Text, offsets: seq<nat>, word: CodeUnit -> bool, keyword: Text, r: Range)
    requires |offsets| == |folded| + 1 && keyword != []
    ensures r in WholeWords(folded, Occurring(folded, keyword), |keyword|, offsets, word)
       <==> IsMatch(folded, offsets, word, keyword, r)
  {
    hide WholeWords, Occurring, MatchAt;
    if i: nat :| MatchAt(folded, offsets, word, keyword, r, i) {
      MatchIsFound(folded, offsets, word, keyword, r, i);
    }
    if r in WholeWords(folded, Occurring(folded, keyword), |keyword|, offsets, word) {
      FoundIsMatch(folded, offsets, word, keyword, r);
    }
  }

  lemma {:induction false} RangesAre(
    folded: Text, offsets: seq<nat>, keywords: seq<Text>, word: CodeUnit -> bool, r: Range)
    requires |offsets| == |folded| + 1 && Searchable(keywords)
    ensures r in RangesOf(folded, offsets, keywords, word)
       <==> exists k <- keywords :: IsMatch(folded, offsets, word, k, r)
  {
    hide IsMatch;
    if keywords != [] {
      var init, k := keywords[..|keywords| - 1], keywords[|keywords| - 1];
      RangesAre(folded, offsets, init, word, r);
      KeywordFinds(folded, offsets, word, k, r);
      assert keywords == init + [k];
    }
  }

  /** The ranges are exactly the places where a keyword stands as a whole word of the
      folded text, overlapping ones included. */
  lemma KeywordMatchesAre(text: Text, keywords: seq<Text>, fold: Text -> Text, word: CodeUnit -> bool, r: Range)
    requires Searchable(keywords)
    ensures r in KeywordMatches(text, keywords, fold, word)
       <==> exists k <- keywords ::
              IsMatch(FoldFrom(text, 0, fold), OffsetsFrom(text, 0, fold), word, k, r)
  {
    OffsetTable(text, 0, fold);
    RangesAre(FoldFrom(text, 0, fold), OffsetsFrom(text, 0, fold), keywords, word, r);
  }
}
