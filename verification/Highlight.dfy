/** The whole of `highlightMentions`, and what its spans are. */
module Highlight {
  import opened Options
  import opened StableSort
  import opened TextSearch
  import opened Fold
  import opened Keywords
  import opened Mention
  import KeywordEditor

  /** What the search brings up for a message, keywords included. */
  function CandidatesFor(
    text: Text, mentions: seq<Ref>, reader: Reader, keywords: seq<Text>,
    fold: Text -> Text, word: CodeUnit -> bool): seq<Claim>
    requires Searchable(keywords)
  {
    AllCandidates(text, mentions, reader, KeywordMatches(text, keywords, fold, word))
  }

  /** The spans for a set of claims. */
  function SpansFor(text: Text, claims: seq<Claim>): seq<Span>
    requires Within(claims, |text|)
  {
    SortWithin(claims, |text|);
    var taken := Sort(claims, By);
    if claims == [] then [Span(text, None)]
    else SpansOf(text, taken) + Rest(text, Cursor(taken))
  }

  lemma SortWithin(claims: seq<Claim>, limit: nat)
    requires Within(claims, limit)
    ensures Within(Sort(claims, By), limit)
  {
    SortMembers(claims, By);
    var r := Sort(claims, By);
    forall i | 0 <= i < |r| ensures r[i].start <= r[i].end <= limit {
      var k :| 0 <= k < |claims| && claims[k] == r[i];
    }
  }

  lemma {:induction false} KeywordCandidatesAre(ranges: seq<Range>, c: Claim)
    ensures c in KeywordCandidates(ranges) <==> c.kind == Keyword && (c.start, c.end) in ranges
  {
    if ranges != [] {
      var init, r := ranges[..|ranges| - 1], ranges[|ranges| - 1];
      KeywordCandidatesAre(init, c);
      assert ranges == init + [r];
      assert c == Claim(r.0, r.1, Keyword) <==> c.kind == Keyword && (c.start, c.end) == r;
    }
  }

  lemma {:induction false} BroadcastFit(text: Text, words: seq<Text>)
    ensures forall c <- BroadcastCandidates(text, words) :: c.start < c.end <= |text|
  {
    if words != [] {
      var needle := Needle(words[|words| - 1]);
      BroadcastFit(text, words[..|words| - 1]);
      CandidatesLength(text, Visited(text, needle), |needle|, Self, true);
    }
  }

  /** Every claim lies within the text, and only a keyword's can be empty. */
  lemma ClaimsFit(
    text: Text, mentions: seq<Ref>, reader: Reader, keywords: seq<Text>,
    fold: Text -> Text, word: CodeUnit -> bool)
    requires Searchable(keywords)
    ensures var claims := Claimed(CandidatesFor(text, mentions, reader, keywords, fold, word));
      && Within(claims, |text|) && Apart(claims)
      && forall i :: 0 <= i < |claims| && claims[i].start == claims[i].end ==>
           (claims[i].start, claims[i].end) in KeywordMatches(text, keywords, fold, word)
  {
    var ranges := KeywordMatches(text, keywords, fold, word);
    var all := CandidatesFor(text, mentions, reader, keywords, fold, word);
    ClaimedApart(all);
    KeywordMatchesFit(text, keywords, fold, word);
    BroadcastFit(text, BROADCAST);
    SortKeeps(mentions, Longest);
    LongestFirst(text, Sort(mentions, Longest), reader);
    var claims := Claimed(all);
    forall i | 0 <= i < |claims|
      ensures claims[i].start <= claims[i].end <= |text|
      ensures claims[i].start == claims[i].end ==> (claims[i].start, claims[i].end) in ranges
    {
      assert claims[i] in all;
      KeywordCandidatesAre(ranges, claims[i]);
    }
  }

  lemma SpansForIff(text: Text, claims: seq<Claim>)
    requires Within(claims, |text|) && Apart(claims)
    ensures Within(Sort(claims, By), |text|)
    ensures Join(SpansFor(text, claims)) == text <==> !Stumbles(claims)
    ensures Highlighted(SpansFor(text, claims)) == Marks(text, Sort(claims, By))
  {
    SortWithin(claims, |text|);
    if claims == [] {
      JoinSnoc([], Span(text, None));
      assert [] + [Span(text, None)] == SpansFor(text, claims);
    } else {
      hide Join, SpansOf, Highlighted, Marks, Sort, Chained, Stumbles;
      SpansPartitionIff(text, Sort(claims, By));
      SortChainedIff(claims);
    }
  }

  /** The spans, put together again, are the text if and only if no claim stumbles:
      no empty keyword match was claimed where a longer claim already began. The
      highlighted ones are always the claims, in the order of the text. */
  lemma HighlightPartitionsIff(
    text: Text, mentions: seq<Ref>, reader: Reader, keywords: seq<Text>,
    fold: Text -> Text, word: CodeUnit -> bool)
    requires Searchable(keywords)
    ensures var claims := Claimed(CandidatesFor(text, mentions, reader, keywords, fold, word));
      && Within(claims, |text|) && Within(Sort(claims, By), |text|)
      && (Join(SpansFor(text, claims)) == text <==> !Stumbles(claims))
      && Highlighted(SpansFor(text, claims)) == Marks(text, Sort(claims, By))
  {
    ClaimsFit(text, mentions, reader, keywords, fold, word);
    SpansForIff(text, Claimed(CandidatesFor(text, mentions, reader, keywords, fold, word)));
  }

  ghost predicate NoCharFoldsBeyond(text: Text, fold: Text -> Text, len: nat) {
    forall p: nat :: p < |text| && Boundary(text, 0, p) ==> |fold(CharAt(text, p))| <= len
  }

  /** No character of the text folds to more units than a keyword has. */
  ghost predicate NoCharFoldsLonger(text: Text, keywords: seq<Text>, fold: Text -> Text) {
    forall i :: 0 <= i < |keywords| ==> NoCharFoldsBeyond(text, fold, |keywords[i]|)
  }

  lemma MatchEndsLater(text: Text, fold: Text -> Text, word: CodeUnit -> bool, keyword: Text, r: Range)
    requires keyword != [] && NoCharFoldsBeyond(text, fold, |keyword|)
    requires IsMatch(FoldFrom(text, 0, fold), OffsetsFrom(text, 0, fold), word, keyword, r)
    ensures r.0 != r.1
  {
    hide FoldFrom, OffsetsFrom, CharAt, Boundary, WholeWord, OccursAt;
    var offsets := OffsetsFrom(text, 0, fold);
    var i: nat :| MatchAt(FoldFrom(text, 0, fold), offsets, word, keyword, r, i);
    if offsets[i] == offsets[i + |keyword|] {
      var p := SameOffset(text, 0, fold, i, i + |keyword|);
    }
  }

  /** Then no match is empty: an empty one ends inside the fold it begins in. */
  lemma NoEmptyMatch(
    text: Text, keywords: seq<Text>, fold: Text -> Text, word: CodeUnit -> bool, r: Range)
    requires Searchable(keywords) && NoCharFoldsLonger(text, keywords, fold)
    requires r in KeywordMatches(text, keywords, fold, word)
    ensures r.0 < r.1
  {
    hide KeywordMatches, FoldFrom, OffsetsFrom, IsMatch, NoCharFoldsBeyond;
    KeywordMatchesFit(text, keywords, fold, word);
    KeywordMatchesAre(text, keywords, fold, word, r);
    var k :| k in keywords && IsMatch(FoldFrom(text, 0, fold), OffsetsFrom(text, 0, fold), word, k, r);
    var n :| 0 <= n < |keywords| && keywords[n] == k;
    MatchEndsLater(text, fold, word, k, r);
  }

  /** And the spans cut the text into pieces, whoever is mentioned. */
  lemma HighlightPartitions(
    text: Text, mentions: seq<Ref>, reader: Reader, keywords: seq<Text>,
    fold: Text -> Text, word: CodeUnit -> bool)
    requires Searchable(keywords) && NoCharFoldsLonger(text, keywords, fold)
    ensures var claims := Claimed(CandidatesFor(text, mentions, reader, keywords, fold, word));
      Within(claims, |text|) && Join(SpansFor(text, claims)) == text
  {
    HighlightPartitionsIff(text, mentions, reader, keywords, fold, word);
    ClaimsFit(text, mentions, reader, keywords, fold, word);
    forall r: Range | r in KeywordMatches(text, keywords, fold, word) ensures r.0 < r.1 {
      NoEmptyMatch(text, keywords, fold, word, r);
    }
  }

  // ---- A stumble ----

  /** One character of two units, such as a letter beyond the first plane. */
  const PAIR: Text := [0xD835, 0xDC00]
  const HALF: Text := [0xD835]

  lemma PairFolds(fold: Text -> Text)
    requires fold(PAIR) == PAIR
    ensures FoldFrom(PAIR, 0, fold) == PAIR && OffsetsFrom(PAIR, 0, fold) == [0, 0, 2]
  {
    assert CharLen(PAIR, 0) == 2 && CharAt(PAIR, 0) == PAIR;
    assert Repeat(0, 2) == Repeat(0, 1) + [0] && Repeat(0, 1) == Repeat(0, 0) + [0];
    assert OffsetsFrom(PAIR, 2, fold) == [2];
    assert FoldFrom(PAIR, 2, fold) == [];
  }

  lemma PairOccurs()
    ensures Occurring(PAIR, PAIR) == [0] && Occurring(PAIR, HALF) == [0]
  {
    assert PAIR[0..2] == PAIR && PAIR[0..1] == HALF;
    assert PAIR[1..2][0] != HALF[0];
    assert !OccursAt(PAIR, PAIR, 1) && !OccursAt(PAIR, PAIR, 2) && !OccursAt(PAIR, HALF, 1) && !OccursAt(PAIR, HALF, 2);
    assert IndexOf(PAIR, PAIR, 0) == Some(0) && IndexOf(PAIR, HALF, 0) == Some(0);
    assert FindFrom(PAIR, PAIR, 2) == None && FindFrom(PAIR, HALF, 2) == None;
    assert IndexOf(PAIR, PAIR, 1) == None && IndexOf(PAIR, HALF, 1) == None;
    assert Scan(PAIR, PAIR, 1, 1) == [] && Scan(PAIR, HALF, 1, 1) == [];
  }

  /** The whole matches from end to end; the half both begins and ends at the start. */
  lemma PairPlaces(word: CodeUnit -> bool)
    requires !word(PAIR[1])
    ensures WholeWords(PAIR, [0], 2, [0, 0, 2], word) == [(0, 2)]
    ensures WholeWords(PAIR, [0], 1, [0, 0, 2], word) == [(0, 0)]
  {
    assert [0][..0] == [];
    assert WholeWord(PAIR, 0, 2, word) && WholeWord(PAIR, 0, 1, word);
  }

  lemma PairRanges(word: CodeUnit -> bool)
    requires !word(PAIR[1])
    ensures RangesOf(PAIR, [0, 0, 2], [PAIR, HALF], word) == [(0, 2), (0, 0)]
  {
    var offsets, keywords := [0, 0, 2], [PAIR, HALF];
    PairOccurs();
    PairPlaces(word);
    assert keywords[..0] == [] && keywords[..2] == keywords;
    assert RangesOf(PAIR, offsets, keywords[..0], word) == [];
    hide RangesOf, Occurring, WholeWords;
    OneKeywordMore(PAIR, offsets, keywords, word, 0);
    OneKeywordMore(PAIR, offsets, keywords, word, 1);
  }

  lemma PairMatches(fold: Text -> Text, word: CodeUnit -> bool)
    requires fold(PAIR) == PAIR && !word(PAIR[1])
    ensures KeywordMatches(PAIR, [PAIR, HALF], fold, word) == [(0, 2), (0, 0)]
  {
    hide FoldFrom, OffsetsFrom, RangesOf;
    PairFolds(fold);
    PairRanges(word);
  }

  const WHOLE_THEN_NONE: seq<Claim> := [Claim(0, 2, Keyword), Claim(0, 0, Keyword)]

  lemma PairCandidates(reader: Reader, fold: Text -> Text, word: CodeUnit -> bool)
    requires fold(PAIR) == PAIR && !word(PAIR[1])
    ensures CandidatesFor(PAIR, [], reader, [PAIR, HALF], fold, word) == WHOLE_THEN_NONE
  {
    hide KeywordMatches, MentionCandidates, BroadcastCandidates;
    PairMatches(fold, word);
    assert AT !in PAIR;
    NoMentionCandidates(PAIR, [], reader, BROADCAST);
    var ranges: seq<Range> := [(0, 2), (0, 0)];
    assert ranges[..1] == [(0, 2)] && ranges[..1][..0] == [];
    assert KeywordCandidates(ranges[..1]) == [Claim(0, 2, Keyword)];
  }

  lemma BothClaimed()
    ensures Claimed(WHOLE_THEN_NONE) == WHOLE_THEN_NONE && Stumbles(WHOLE_THEN_NONE)
  {
    var whole, none := WHOLE_THEN_NONE[0], WHOLE_THEN_NONE[1];
    ClaimOne([], whole);
    ClaimOne([whole], none);
    assert [] + [whole] == [whole] && [whole] + [none] == WHOLE_THEN_NONE;
    assert Stumble(WHOLE_THEN_NONE[0], WHOLE_THEN_NONE[1]);
  }

  lemma SaidTwice()
    ensures Within(WHOLE_THEN_NONE, |PAIR|) && Join(SpansFor(PAIR, WHOLE_THEN_NONE)) == PAIR + PAIR
  {
    var claims := WHOLE_THEN_NONE;
    assert claims[..1] == [claims[0]] && [claims[0]][..0] == [];
    assert Sort([claims[0]], By) == [claims[0]];
    assert Sort(claims, By) == claims;
    SpansStep(PAIR, [claims[0]]);
    SpansStep(PAIR, claims);
    assert SpansOf(PAIR, []) == [] && Join([]) == [];
    assert Join(SpansOf(PAIR, claims)) == PAIR;
    JoinSnoc(SpansOf(PAIR, claims), Span(PAIR[0..], None));
  }

  /** With a keyword that is half of such a character, listed after the whole of it,
      the spans say the text twice. */
  lemma HalfStumbles(reader: Reader, fold: Text -> Text, word: CodeUnit -> bool)
    requires fold(PAIR) == PAIR && !word(PAIR[1])
    ensures Searchable([PAIR, HALF])
    ensures var claims := Claimed(CandidatesFor(PAIR, [], reader, [PAIR, HALF], fold, word));
      Within(claims, |PAIR|) && Stumbles(claims) && Join(SpansFor(PAIR, claims)) == PAIR + PAIR != PAIR
  {
    hide CandidatesFor, Claimed, SpansFor, Join, Stumbles;
    PairCandidates(reader, fold, word);
    BothClaimed();
    SaidTwice();
    assert |PAIR + PAIR| != |PAIR|;
  }

  /** The same two with a combining accent after each: two characters by the editor's
      count, and folding drops the accent. */
  const WHOLE_MARKED: Text := [0xD835, 0xDC00, 0x301]
  const HALF_MARKED: Text := [0xD835, 0x301]

  lemma MarkedAreStored(fold: Text -> Text, space: CodeUnit -> bool)
    requires fold(WHOLE_MARKED) == PAIR && fold(HALF_MARKED) == HALF && !space(0xD835) && !space(0x301)
    ensures KeywordEditor.KeywordProblem(WHOLE_MARKED, [], fold, space) == None
    ensures KeywordEditor.KeywordProblem(HALF_MARKED, [WHOLE_MARKED], fold, space) == None
    ensures KeywordEditor.Stored([WHOLE_MARKED, HALF_MARKED], fold, space) == [PAIR, HALF]
  {
    assert KeywordEditor.Trim(WHOLE_MARKED, space) == WHOLE_MARKED;
    assert KeywordEditor.Trim(HALF_MARKED, space) == HALF_MARKED;
    assert KeywordEditor.CodePoints(WHOLE_MARKED, 3) == 0 && KeywordEditor.CodePoints(WHOLE_MARKED, 2) == 1;
    assert KeywordEditor.CodePoints(HALF_MARKED, 2) == 0 && KeywordEditor.CodePoints(HALF_MARKED, 1) == 1;
    assert KeywordEditor.FoldAll([WHOLE_MARKED, HALF_MARKED], fold, space) == [PAIR, HALF];
    SortedAlready();
  }

  lemma SortedAlready()
    ensures Sort([PAIR, HALF], KeywordEditor.LongestFirst) == [PAIR, HALF]
  {
    assert [PAIR, HALF][..1] == [PAIR] && [PAIR][..0] == [];
    assert Sort([PAIR], KeywordEditor.LongestFirst) == [PAIR];
  }

  /** So a list the editor accepted makes the highlighter say a text twice. */
  lemma AcceptedKeywordsStumble(
    reader: Reader, fold: Text -> Text, space: CodeUnit -> bool, each: Text -> Text, word: CodeUnit -> bool)
    requires fold(WHOLE_MARKED) == PAIR && fold(HALF_MARKED) == HALF && !space(0xD835) && !space(0x301)
    requires each(PAIR) == PAIR && !word(PAIR[1])
    ensures KeywordEditor.KeywordProblem(WHOLE_MARKED, [], fold, space) == None
    ensures KeywordEditor.KeywordProblem(HALF_MARKED, [WHOLE_MARKED], fold, space) == None
    ensures var keywords := KeywordEditor.Stored([WHOLE_MARKED, HALF_MARKED], fold, space);
      && Searchable(keywords)
      && var claims := Claimed(CandidatesFor(PAIR, [], reader, keywords, each, word));
         Within(claims, |PAIR|) && Join(SpansFor(PAIR, claims)) == PAIR + PAIR
  {
    hide CandidatesFor, Claimed, SpansFor, Join, KeywordEditor.Stored, KeywordEditor.KeywordProblem;
    MarkedAreStored(fold, space);
    HalfStumbles(reader, each, word);
  }

  // ---- Nothing found is lost ----

  /** A candidate is highlighted, or overlaps something that is. */
  predicate Shown(claims: seq<Claim>, c: Claim) {
    c in claims || exists t <- claims :: c.start < t.end && t.start < c.end
  }

  lemma CandidateShown(all: seq<Claim>, c: Claim)
    requires c in all
    ensures Shown(Claimed(all), c)
  {
    var k :| 0 <= k < |all| && all[k] == c;
    assert all[..k] + [c] <= all;
    EveryCandidateCounts(all[..k], c, all);
    var before := Claimed(all[..k]);
    if Taken(before, c) {
      var i :| 0 <= i < |before| && Overlap(c, before[i]);
      PrefixMember(before, Claimed(all), before[i]);
    }
  }

  lemma {:induction false} OccurrenceIsCandidate(text: Text, mentions: seq<Ref>, reader: Reader, m: Ref, i: nat)
    requires m in mentions && i in Visited(text, Needle(m.name)) && StartBoundaryAt(text, i)
    ensures Claim(i, i + |Needle(m.name)|, KindOf(reader, m)) in MentionCandidates(text, mentions, reader)
  {
    var init, last := mentions[..|mentions| - 1], mentions[|mentions| - 1];
    var needle := Needle(m.name);
    assert mentions == init + [last];
    if m in init {
      OccurrenceIsCandidate(text, init, reader, m, i);
    } else {
      CandidatesAre(text, Visited(text, needle), |needle|, KindOf(reader, m), false,
                    Claim(i, i + |needle|, KindOf(reader, m)));
    }
  }

  lemma {:induction false} BroadcastIsCandidate(text: Text, words: seq<Text>, w: Text, i: nat)
    requires w in words && i in Visited(text, Needle(w)) && StartBoundaryAt(text, i)
    requires EndBoundary(text, i + |Needle(w)|)
    ensures Claim(i, i + |Needle(w)|, Self) in BroadcastCandidates(text, words)
  {
    var init, last := words[..|words| - 1], words[|words| - 1];
    var needle := Needle(w);
    assert words == init + [last];
    if w in init {
      BroadcastIsCandidate(text, init, w, i);
    } else {
      CandidatesAre(text, Visited(text, needle), |needle|, Self, true, Claim(i, i + |needle|, Self));
    }
  }

  // ---- The method ----

  lemma CandidatesLast(text: Text, at: seq<nat>, len: nat, kind: Kind, ends: bool)
    requires AllFit(text, at, len) && at != []
    ensures AllFit(text, at[..|at| - 1], len)
    ensures Candidates(text, at, len, kind, ends)
         == Candidates(text, at[..|at| - 1], len, kind, ends) + CandidateAt(text, at[|at| - 1], len, kind, ends)
  {
  }

  function CandidateAt(text: Text, i: nat, len: nat, kind: Kind, ends: bool): seq<Claim>
    requires i + len <= |text|
  {
    if IsCandidate(text, i, len, ends) then [Claim(i, i + len, kind)] else []
  }

  /** The candidates, read from the front: what is done and what is left to visit. */
  lemma {:induction false} CandidatesFront(text: Text, at: seq<nat>, len: nat, kind: Kind, ends: bool)
    requires AllFit(text, at, len) && at != []
    ensures AllFit(text, at[1..], len)
    ensures Candidates(text, at, len, kind, ends)
         == CandidateAt(text, at[0], len, kind, ends) + Candidates(text, at[1..], len, kind, ends)
  {
    hide CandidateAt, Candidates;
    var n := |at| - 1;
    CandidatesLast(text, at, len, kind, ends);
    if n == 0 {
      NoCandidates(text, at[..0], at[1..], len, kind, ends);
    } else {
      var init, tail := at[..n], at[1..];
      CandidatesFront(text, init, len, kind, ends);
      assert tail[..|tail| - 1] == init[1..] && tail[|tail| - 1] == at[n];
      CandidatesLast(text, tail, len, kind, ends);
    }
  }

  lemma NoCandidates(text: Text, a: seq<nat>, b: seq<nat>, len: nat, kind: Kind, ends: bool)
    requires a == b == []
    ensures Candidates(text, a, len, kind, ends) == Candidates(text, b, len, kind, ends) == []
  {
  }

  lemma VisitedStep(text: Text, at: seq<nat>, len: nat, kind: Kind, ends: bool, done: seq<Claim>)
    requires AllFit(text, at, len) && at != []
    ensures AllFit(text, at[1..], len)
    ensures var next := if IsCandidate(text, at[0], len, ends) then [Claim(at[0], at[0] + len, kind)] else [];
      done + Candidates(text, at, len, kind, ends) == done + next + Candidates(text, at[1..], len, kind, ends)
  {
    CandidatesFront(text, at, len, kind, ends);
    hide Candidates;
    Reassociate(done, CandidateAt(text, at[0], len, kind, ends), Candidates(text, at[1..], len, kind, ends));
  }

  lemma BroadcastStep(text: Text, words: seq<Text>, n: nat, done: seq<Claim>)
    requires n < |words|
    ensures var needle := Needle(words[n]);
      done + BroadcastCandidates(text, words[..n + 1])
      == done + BroadcastCandidates(text, words[..n])
         + Candidates(text, Visited(text, needle), |needle|, Self, true)
  {
    assert words[..n + 1][..n] == words[..n];
  }

  /** One candidate, claimed unless its place is taken. */
  method ClaimIfFree(taken: seq<Claim>, c: Claim, ghost done: seq<Claim>) returns (more: seq<Claim>)
    requires taken == Claimed(done)
    ensures more == Claimed(done + [c])
  {
    ClaimOne(done, c);
    more := if Taken(taken, c) then taken else taken + [c];
  }

  method ClaimVisited(
    text: Text, at: seq<nat>, len: nat, kind: Kind, ends: bool, taken: seq<Claim>, ghost done: seq<Claim>)
    returns (more: seq<Claim>)
    requires AllFit(text, at, len) && taken == Claimed(done)
    ensures more == Claimed(done + Candidates(text, at, len, kind, ends))
  {
    more := taken;
    var left := at;
    ghost var all := done;
    while left != []
      invariant AllFit(text, left, len) && more == Claimed(all)
      invariant all + Candidates(text, left, len, kind, ends) == done + Candidates(text, at, len, kind, ends)
    {
      VisitedStep(text, left, len, kind, ends, all);
      if IsCandidate(text, left[0], len, ends) {
        var c := Claim(left[0], left[0] + len, kind);
        more := ClaimIfFree(more, c, all);
        all := all + [c];
      }
      left := left[1..];
    }
    assert all + [] == all;
  }

  method ClaimMentions(text: Text, mentions: seq<Ref>, reader: Reader) returns (taken: seq<Claim>)
    ensures taken == Claimed(MentionCandidates(text, mentions, reader))
  {
    taken := [];
    var n := 0;
    while n < |mentions|
      invariant n <= |mentions| && taken == Claimed(MentionCandidates(text, mentions[..n], reader))
    {
      var needle := Needle(mentions[n].name);
      assert mentions[..n + 1][..n] == mentions[..n];
      var at := Visits(text, needle, |needle|);
      assert at == Visited(text, needle);
      taken := ClaimVisited(text, at, |needle|, KindOf(reader, mentions[n]), false,
                            taken, MentionCandidates(text, mentions[..n], reader));
      n := n + 1;
    }
    assert mentions[..n] == mentions;
  }

  method ClaimBroadcasts(text: Text, words: seq<Text>, taken: seq<Claim>, ghost done: seq<Claim>)
    returns (more: seq<Claim>)
    requires taken == Claimed(done)
    ensures more == Claimed(done + BroadcastCandidates(text, words))
  {
    more := taken;
    var n := 0;
    assert done + BroadcastCandidates(text, words[..0]) == done;
    while n < |words|
      invariant n <= |words| && more == Claimed(done + BroadcastCandidates(text, words[..n]))
    {
      var needle := Needle(words[n]);
      var at := Visits(text, needle, |needle|);
      assert at == Visited(text, needle);
      BroadcastStep(text, words, n, done);
      more := ClaimVisited(text, at, |needle|, Self, true, more, done + BroadcastCandidates(text, words[..n]));
      n := n + 1;
    }
    assert words[..n] == words;
  }

  method ClaimKeywords(ranges: seq<Range>, taken: seq<Claim>, ghost done: seq<Claim>) returns (more: seq<Claim>)
    requires taken == Claimed(done)
    ensures more == Claimed(done + KeywordCandidates(ranges))
  {
    more := taken;
    var n := 0;
    assert done + KeywordCandidates(ranges[..0]) == done;
    while n < |ranges|
      invariant n <= |ranges| && more == Claimed(done + KeywordCandidates(ranges[..n]))
    {
      var c := Claim(ranges[n].0, ranges[n].1, Keyword);
      assert ranges[..n + 1][..n] == ranges[..n];
      ghost var before := done + KeywordCandidates(ranges[..n]);
      assert done + KeywordCandidates(ranges[..n + 1]) == before + [c];
      ClaimOne(before, c);
      if !Taken(more, c) {
        more := more + [c];
      }
      n := n + 1;
    }
    assert ranges[..n] == ranges;
  }

  method CutSpans(text: Text, taken: seq<Claim>) returns (spans: seq<Span>)
    requires Within(taken, |text|)
    ensures spans == SpansOf(text, taken) + Rest(text, Cursor(taken))
  {
    spans := [];
    var cursor := 0;
    var n := 0;
    while n < |taken|
      invariant n <= |taken| && cursor == Cursor(taken[..n]) && spans == SpansOf(text, taken[..n])
    {
      var c := taken[n];
      assert taken[..n + 1][..n] == taken[..n];
      if c.start > cursor {
        spans := spans + [Span(text[cursor..c.start], None)];
      }
      spans := spans + [Span(text[c.start..c.end], Some(c.kind))];
      cursor := c.end;
      n := n + 1;
    }
    assert taken[..n] == taken;
    if cursor < |text| {
      spans := spans + [Span(text[cursor..], None)];
    }
  }

  /** Without an at sign nothing can be mentioned. */
  lemma NothingToMention(text: Text, needle: Text)
    requires AT !in text && AT in needle
    ensures Visited(text, needle) == []
  {
    var j :| 0 <= j < |needle| && needle[j] == AT;
    forall i: nat ensures !OccursAt(text, needle, i) {
      if i + |needle| <= |text| { assert text[i..i + |needle|][j] == text[i + j] && text[i + j] in text; }
    }
    IndexOfFinds(text, needle, 0);
  }

  lemma {:induction false} NoMentionCandidates(text: Text, mentions: seq<Ref>, reader: Reader, words: seq<Text>)
    requires AT !in text
    ensures MentionCandidates(text, mentions, reader) == [] && BroadcastCandidates(text, words) == []
    decreases |mentions| + |words|
  {
    if mentions != [] {
      NoMentionCandidates(text, mentions[..|mentions| - 1], reader, words);
      NothingToMention(text, Needle(mentions[|mentions| - 1].name));
    } else if words != [] {
      NoMentionCandidates(text, mentions, reader, words[..|words| - 1]);
      NothingToMention(text, Needle(words[|words| - 1]));
    }
  }

  /** The spans, or nothing where the keyword search never ends. */
  method HighlightMentions(
    text: Text, mentions: seq<Ref>, reader: Reader, keywords: seq<Text>,
    fold: Text -> Text, word: CodeUnit -> bool) returns (spans: Option<seq<Span>>)
    ensures spans.None? <==> Hangs(text, keywords, fold)
    ensures spans.Some? ==> Searchable(keywords)
    ensures spans.Some? ==>
      var claims := Claimed(CandidatesFor(text, mentions, reader, keywords, fold, word));
      Within(claims, |text|) && spans.value == SpansFor(text, claims)
  {
    hide Hangs;
    HangsIff(text, keywords, fold);
    var sorted := Sort(mentions, Longest);
    if AT !in text && keywords == [] {
      ClaimsFit(text, mentions, reader, keywords, fold, word);
      NoMentionCandidates(text, sorted, reader, BROADCAST);
      return Some([Span(text, None)]);
    }
    var taken := ClaimMentions(text, sorted, reader);
    ghost var done := MentionCandidates(text, sorted, reader);
    taken := ClaimBroadcasts(text, BROADCAST, taken, done);
    done := done + BroadcastCandidates(text, BROADCAST);
    var ranges := KeywordRanges(text, keywords, fold, word);
    if ranges.None? {
      return None;
    }
    ClaimsFit(text, mentions, reader, keywords, fold, word);
    taken := ClaimKeywords(ranges.value, taken, done);
    if taken == [] {
      return Some([Span(text, None)]);
    }
    SortWithin(taken, |text|);
    var cut := CutSpans(text, Sort(taken, By));
    return Some(cut);
  }
}
