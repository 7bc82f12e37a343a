/** When the spans cut the text into pieces whoever is mentioned. */
module HighlightExact {
  import opened Options
  import opened StableSort
  import opened TextSearch
  import opened Fold
  import opened Keywords
  import opened Mention
  import opened Highlight

  ghost predicate Partitions(
    text: Text, mentions: seq<Ref>, reader: Reader, keywords: seq<Text>, fold: Text -> Text, word: CodeUnit -> bool)
    requires Searchable(keywords)
  {
    var claims := Claimed(CandidatesFor(text, mentions, reader, keywords, fold, word));
    Within(claims, |text|) && Join(SpansFor(text, claims)) == text
  }

  /** They do for every list of mentions and every reader. */
  ghost predicate AlwaysPartitions(text: Text, keywords: seq<Text>, fold: Text -> Text, word: CodeUnit -> bool)
    requires Searchable(keywords)
  {
    forall mentions: seq<Ref>, reader: Reader :: Partitions(text, mentions, reader, keywords, fold, word)
  }

  /** A mention may begin there. */
  predicate MentionPlace(text: Text, p: nat) { p < |text| && text[p] == AT && StartBoundaryAt(text, p) }

  /** No keyword match is empty where a mention may begin. */
  predicate NoEmptyAtMention(text: Text, ranges: seq<Range>) {
    forall i :: 0 <= i < |ranges| && ranges[i].0 == ranges[i].1 ==> !MentionPlace(text, ranges[i].0)
  }

  /** No keyword match is empty where an earlier, longer one begins. */
  predicate NoneStumbles(ranges: seq<Range>) {
    forall i, j :: 0 <= i < j < |ranges| && ranges[i].0 == ranges[j].0 == ranges[j].1 ==> ranges[i].1 == ranges[i].0
  }

  // ---- Claims keep the order of candidates ----

  lemma {:induction false} ClaimedOrder(candidates: seq<Claim>, i: nat, j: nat) returns (p: nat, q: nat)
    requires i < j < |Claimed(candidates)|
    ensures p < q < |candidates| && candidates[p] == Claimed(candidates)[i] && candidates[q] == Claimed(candidates)[j]
  {
    var n := |candidates| - 1;
    var init := candidates[..n];
    if j < |Claimed(init)| {
      p, q := ClaimedOrder(init, i, j);
    } else {
      p := ClaimedFrom(init, i);
      q := n;
    }
  }

  lemma {:induction false} KeywordAt(ranges: seq<Range>, i: nat)
    requires i < |ranges|
    ensures |KeywordCandidates(ranges)| == |ranges|
    ensures KeywordCandidates(ranges)[i] == Claim(ranges[i].0, ranges[i].1, Keyword)
  {
    var n := |ranges| - 1;
    if n > 0 {
      KeywordAt(ranges[..n], if i < n then i else 0);
    }
  }

  // ---- Candidates that are not keywords begin where a mention may ----

  lemma NeedleBeginsAt(text: Text, name: Text, i: nat)
    requires OccursAt(text, Needle(name), i)
    ensures i < |text| && text[i] == AT
  {
    assert text[i..i + |Needle(name)|][0] == Needle(name)[0];
  }

  lemma CandidateBegins(text: Text, name: Text, kind: Kind, ends: bool, c: Claim)
    requires c in Candidates(text, Visited(text, Needle(name)), |Needle(name)|, kind, ends)
    ensures MentionPlace(text, c.start) && c.kind == kind && c.start < c.end
  {
    hide Candidates;
    CandidatesAre(text, Visited(text, Needle(name)), |Needle(name)|, kind, ends, c);
    ScanVisits(text, Needle(name), 0, |Needle(name)|);
    NeedleBeginsAt(text, name, c.start);
  }

  lemma {:induction false} MentionBegins(text: Text, mentions: seq<Ref>, reader: Reader, c: Claim)
    requires c in MentionCandidates(text, mentions, reader)
    ensures MentionPlace(text, c.start) && c.kind != Keyword && c.start < c.end
  {
    hide Candidates, MentionPlace;
    var init, m := mentions[..|mentions| - 1], mentions[|mentions| - 1];
    if c in MentionCandidates(text, init, reader) {
      MentionBegins(text, init, reader, c);
    } else {
      CandidateBegins(text, m.name, KindOf(reader, m), false, c);
    }
  }

  lemma {:induction false} BroadcastBegins(text: Text, words: seq<Text>, c: Claim)
    requires c in BroadcastCandidates(text, words)
    ensures MentionPlace(text, c.start) && c.kind != Keyword && c.start < c.end
  {
    hide Candidates, MentionPlace;
    var init, w := words[..|words| - 1], words[|words| - 1];
    if c in BroadcastCandidates(text, init) {
      BroadcastBegins(text, init, c);
    } else {
      CandidateBegins(text, w, Self, true, c);
    }
  }

  /** What is claimed before any keyword. */
  function Early(text: Text, mentions: seq<Ref>, reader: Reader): seq<Claim> {
    MentionCandidates(text, Sort(mentions, Longest), reader) + BroadcastCandidates(text, BROADCAST)
  }

  lemma EarlyBegins(text: Text, mentions: seq<Ref>, reader: Reader, c: Claim)
    requires c in Early(text, mentions, reader)
    ensures MentionPlace(text, c.start) && c.kind != Keyword && c.start < c.end
  {
    hide MentionCandidates, BroadcastCandidates, Sort, MentionPlace;
    if c in MentionCandidates(text, Sort(mentions, Longest), reader) {
      MentionBegins(text, Sort(mentions, Longest), reader, c);
    } else {
      BroadcastBegins(text, BROADCAST, c);
    }
  }

  /** The candidate at a place: one of the early ones, or the next keyword match. */
  lemma CandidateIs(
    text: Text, mentions: seq<Ref>, reader: Reader, keywords: seq<Text>,
    fold: Text -> Text, word: CodeUnit -> bool, p: nat)
    requires Searchable(keywords) && p < |CandidatesFor(text, mentions, reader, keywords, fold, word)|
    ensures var early, ranges := Early(text, mentions, reader), KeywordMatches(text, keywords, fold, word);
      var c := CandidatesFor(text, mentions, reader, keywords, fold, word)[p];
      if p < |early| then MentionPlace(text, c.start) && c.kind != Keyword && c.start < c.end
      else p - |early| < |ranges| && c == Claim(ranges[p - |early|].0, ranges[p - |early|].1, Keyword)
  {
    hide MentionCandidates, BroadcastCandidates, KeywordMatches, KeywordCandidates, MentionPlace;
    var early, ranges := Early(text, mentions, reader), KeywordMatches(text, keywords, fold, word);
    assert CandidatesFor(text, mentions, reader, keywords, fold, word) == early + KeywordCandidates(ranges);
    if p < |early| {
      EarlyBegins(text, mentions, reader, early[p]);
    } else {
      CountKeywords(ranges);
      KeywordAt(ranges, p - |early|);
    }
  }

  lemma CountKeywords(ranges: seq<Range>)
    ensures |KeywordCandidates(ranges)| == |ranges|
  {
    if ranges != [] { KeywordAt(ranges, 0); }
  }

  /** Where no match is empty in either of the two ways, no claim stumbles. */
  lemma NeverStumbles(
    text: Text, mentions: seq<Ref>, reader: Reader, keywords: seq<Text>,
    fold: Text -> Text, word: CodeUnit -> bool)
    requires Searchable(keywords)
    requires NoEmptyAtMention(text, KeywordMatches(text, keywords, fold, word))
    requires NoneStumbles(KeywordMatches(text, keywords, fold, word))
    ensures !Stumbles(Claimed(CandidatesFor(text, mentions, reader, keywords, fold, word)))
  {
    hide CandidatesFor, Claimed, KeywordMatches, MentionPlace, Early;
    var all := CandidatesFor(text, mentions, reader, keywords, fold, word);
    var claims := Claimed(all);
    forall i, j | 0 <= i < j < |claims| ensures !Stumble(claims[i], claims[j]) {
      var p, q := ClaimedOrder(all, i, j);
      CandidateIs(text, mentions, reader, keywords, fold, word, p);
      CandidateIs(text, mentions, reader, keywords, fold, word, q);
    }
  }

  // ---- An empty match where a mention may begin ----

  /** A mention without a name: its needle is the at sign alone. */
  const NAMELESS := Ref([], 0)

  lemma SortedOne(m: Ref)
    ensures Sort([m], Longest) == [m]
  {
    assert [m][..0] == [];
  }

  lemma AtSignVisited(text: Text, p: nat)
    requires MentionPlace(text, p)
    ensures p in Visited(text, Needle([]))
  {
    assert Needle([]) == [AT] && text[p..p + 1] == [AT];
    ScanCovers(text, Needle([]), 0, 1, p);
  }

  /** It is claimed wherever it stands: nothing else of length one overlaps it. */
  lemma NamelessClaimed(text: Text, reader: Reader, p: nat) returns (c: Claim)
    requires MentionPlace(text, p)
    ensures c.start == p && c.end == p + 1 && c.kind != Keyword
    ensures c in Claimed(MentionCandidates(text, [NAMELESS], reader))
  {
    c := Claim(p, p + 1, KindOf(reader, NAMELESS));
    AtSignVisited(text, p);
    assert Needle([]) == [AT];
    OccurrenceIsCandidate(text, [NAMELESS], reader, NAMELESS, p);
    var cs := MentionCandidates(text, [NAMELESS], reader);
    hide Claimed, MentionCandidates;
    var k :| 0 <= k < |cs| && cs[k] == c;
    NamelessLength(text, reader);
    GivesWayToLonger(cs, k);
    if GaveWay(cs, Claimed(cs), k) {
      var j: nat :| j < k && cs[j] in Claimed(cs) && cs[k].start < cs[j].end && cs[j].start < cs[k].end;
      assert cs[j].start == p;
      assert cs[j] == c;
    }
  }

  lemma NamelessLength(text: Text, reader: Reader)
    ensures var cs := MentionCandidates(text, [NAMELESS], reader);
      && NoLonger(cs)
      && forall k :: 0 <= k < |cs| ==> cs[k].end == cs[k].start + 1 && cs[k].kind == KindOf(reader, NAMELESS)
  {
    var cs := MentionCandidates(text, [NAMELESS], reader);
    var own := Candidates(text, Visited(text, Needle([])), 1, KindOf(reader, NAMELESS), false);
    assert [NAMELESS][..0] == [];
    assert MentionCandidates(text, [], reader) == [];
    assert [] + own == own && cs == own;
    hide Candidates, MentionCandidates;
    CandidatesLength(text, Visited(text, Needle([])), 1, KindOf(reader, NAMELESS), false);
    forall k | 0 <= k < |cs| ensures cs[k].kind == KindOf(reader, NAMELESS) {
      CandidatesAre(text, Visited(text, Needle([])), 1, KindOf(reader, NAMELESS), false, cs[k]);
    }
  }

  lemma KeywordIsCandidate(
    text: Text, mentions: seq<Ref>, reader: Reader, keywords: seq<Text>,
    fold: Text -> Text, word: CodeUnit -> bool, i: nat)
    requires Searchable(keywords) && i < |KeywordMatches(text, keywords, fold, word)|
    ensures var r := KeywordMatches(text, keywords, fold, word)[i];
      Claim(r.0, r.1, Keyword) in CandidatesFor(text, mentions, reader, keywords, fold, word)
  {
    hide MentionCandidates, BroadcastCandidates, KeywordMatches, KeywordCandidates;
    var ranges := KeywordMatches(text, keywords, fold, word);
    KeywordAt(ranges, i);
    assert Claim(ranges[i].0, ranges[i].1, Keyword) in KeywordCandidates(ranges);
  }

  /** The claim of the nameless mention comes before any keyword's. */
  lemma NamelessFirst(
    text: Text, reader: Reader, keywords: seq<Text>, fold: Text -> Text, word: CodeUnit -> bool, p: nat)
    returns (c: Claim, a: nat, n: nat)
    requires Searchable(keywords) && MentionPlace(text, p)
    ensures var claims := Claimed(CandidatesFor(text, [NAMELESS], reader, keywords, fold, word));
      && c.start == p && c.end == p + 1 && a < n <= |claims| && claims[a] == c
      && forall b :: 0 <= b < n ==> claims[b].kind != Keyword
  {
    c := NamelessClaimed(text, reader, p);
    SortedOne(NAMELESS);
    var cs := MentionCandidates(text, [NAMELESS], reader);
    var all := CandidatesFor(text, [NAMELESS], reader, keywords, fold, word);
    assert cs <= all;
    hide CandidatesFor, MentionCandidates, Claimed, MentionPlace;
    ClaimedGrows(cs, all);
    ClaimedApart(cs);
    var early := Claimed(cs);
    a :| 0 <= a < |early| && early[a] == c;
    n := |early|;
    forall b | 0 <= b < n ensures early[b].kind != Keyword { MentionBegins(text, [NAMELESS], reader, early[b]); }
  }

  lemma EmptyMatchStumbles(
    text: Text, reader: Reader, keywords: seq<Text>, fold: Text -> Text, word: CodeUnit -> bool, i: nat)
    requires Searchable(keywords) && i < |KeywordMatches(text, keywords, fold, word)|
    requires var r := KeywordMatches(text, keywords, fold, word)[i]; r.0 == r.1 && MentionPlace(text, r.0)
    ensures Stumbles(Claimed(CandidatesFor(text, [NAMELESS], reader, keywords, fold, word)))
  {
    hide CandidatesFor, Claimed, KeywordMatches, MentionPlace;
    var p := KeywordMatches(text, keywords, fold, word)[i].0;
    var all := CandidatesFor(text, [NAMELESS], reader, keywords, fold, word);
    var claims, empty := Claimed(all), Claim(p, p, Keyword);
    var c, a, n := NamelessFirst(text, reader, keywords, fold, word, p);
    KeywordIsCandidate(text, [NAMELESS], reader, keywords, fold, word, i);
    CandidateShown(all, empty);
    ClaimedApart(all);
    forall t | 0 <= t < |claims| ensures !Overlap(empty, claims[t]) {
      if t < a { assert !Overlap(claims[t], c); }
      if a < t { assert !Overlap(c, claims[t]); }
    }
    var b :| 0 <= b < |claims| && claims[b] == empty;
    assert a < b && Stumble(claims[a], claims[b]);
  }

  /** Unless keyword matches stumble over each other, the spans cut the text into pieces
      for every list of mentions and every reader if and only if no keyword match is
      empty where a mention may begin. */
  lemma AlwaysPartitionsIff(text: Text, keywords: seq<Text>, fold: Text -> Text, word: CodeUnit -> bool)
    requires Searchable(keywords) && NoneStumbles(KeywordMatches(text, keywords, fold, word))
    ensures AlwaysPartitions(text, keywords, fold, word)
       <==> NoEmptyAtMention(text, KeywordMatches(text, keywords, fold, word))
  {
    hide CandidatesFor, Claimed, KeywordMatches, MentionPlace, NoneStumbles, Stumbles, Join, SpansFor;
    var ranges := KeywordMatches(text, keywords, fold, word);
    if NoEmptyAtMention(text, ranges) {
      forall mentions: seq<Ref>, reader: Reader ensures Partitions(text, mentions, reader, keywords, fold, word) {
        NeverStumbles(text, mentions, reader, keywords, fold, word);
        HighlightPartitionsIff(text, mentions, reader, keywords, fold, word);
      }
    } else {
      var i :| 0 <= i < |ranges| && ranges[i].0 == ranges[i].1 && MentionPlace(text, ranges[i].0);
      var reader := Reader(None, {});
      EmptyMatchStumbles(text, reader, keywords, fold, word, i);
      HighlightPartitionsIff(text, [NAMELESS], reader, keywords, fold, word);
      assert !Partitions(text, [NAMELESS], reader, keywords, fold, word);
    }
  }

  // ---- One keyword ----

  /** The matches of one keyword end in order. */
  predicate EndInOrder(ranges: seq<Range>) { forall i, j :: 0 <= i < j < |ranges| ==> ranges[i].1 <= ranges[j].1 }

  lemma {:induction false} WholeWordsEndInOrder(
    folded: Text, at: seq<nat>, len: nat, offsets: seq<nat>, word: CodeUnit -> bool)
    requires (forall k :: 0 <= k < |at| ==> at[k] + len < |offsets|) && NonDecreasing(offsets) && NonDecreasing(at)
    ensures var ranges := WholeWords(folded, at, len, offsets, word);
      && EndInOrder(ranges)
      && (at != [] ==> forall i :: 0 <= i < |ranges| ==> ranges[i].1 <= offsets[at[|at| - 1] + len])
  {
    hide WholeWord;
    if at != [] {
      var init := at[..|at| - 1];
      WholeWordsEndInOrder(folded, init, len, offsets, word);
      if init != [] {
        assert init[|init| - 1] + len <= at[|at| - 1] + len;
        assert offsets[init[|init| - 1] + len] <= offsets[at[|at| - 1] + len];
      }
    }
  }

  lemma OneKeywordInOrder(text: Text, keyword: Text, fold: Text -> Text, word: CodeUnit -> bool)
    requires keyword != []
    ensures EndInOrder(KeywordMatches(text, [keyword], fold, word))
  {
    OffsetTable(text, 0, fold);
    var folded, offsets := FoldFrom(text, 0, fold), OffsetsFrom(text, 0, fold);
    ScanSteps(folded, keyword, 0, 1);
    assert NonDecreasing(Scan(folded, keyword, 0, 1));
    WholeWordsEndInOrder(folded, Occurring(folded, keyword), |keyword|, offsets, word);
    assert [keyword][..0] == [];
    var own := WholeWords(folded, Occurring(folded, keyword), |keyword|, offsets, word);
    assert RangesOf(folded, offsets, [], word) == [] && [] + own == own;
  }

  /** With one keyword there is no proviso. */
  lemma OneKeywordPartitionsIff(text: Text, keyword: Text, fold: Text -> Text, word: CodeUnit -> bool)
    requires keyword != []
    ensures AlwaysPartitions(text, [keyword], fold, word)
       <==> NoEmptyAtMention(text, KeywordMatches(text, [keyword], fold, word))
  {
    hide KeywordMatches, AlwaysPartitions, NoEmptyAtMention;
    var ranges := KeywordMatches(text, [keyword], fold, word);
    OneKeywordInOrder(text, keyword, fold, word);
    KeywordMatchesFit(text, [keyword], fold, word);
    forall i | 0 <= i < |ranges| ensures ranges[i].0 <= ranges[i].1 { assert ranges[i] in ranges; }
    AlwaysPartitionsIff(text, [keyword], fold, word);
  }
}
