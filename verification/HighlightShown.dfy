/** What is highlighted, told from the message, its mentions and the reader alone. */
module HighlightShown {
  import opened Options
  import opened StableSort
  import opened TextSearch
  import opened Fold
  import opened Keywords
  import opened Mention
  import opened Highlight

  /** An at sign and the name, at the start of the text or after a space, a line feed or
      an opening parenthesis. */
  predicate NamedAt(text: Text, name: Text, i: nat) {
    && i + 1 + |name| <= |text| && text[i] == 0x40 && text[i + 1..i + 1 + |name|] == name
    && (i > 0 ==> text[i - 1] == 0x20 || text[i - 1] == 0x0A || text[i - 1] == 0x28)
  }

  /** And no letter, digit or underscore after it. */
  predicate CalledAt(text: Text, name: Text, i: nat) {
    && NamedAt(text, name, i)
    && (i + 1 + |name| < |text| ==>
          (var u := text[i + 1 + |name|];
           !(0x41 <= u <= 0x5A) && !(0x61 <= u <= 0x7A) && !(0x30 <= u <= 0x39) && u != 0x5F))
  }

  /** here, everyone, channel */
  predicate CallsAll(w: Text) {
    || w == [0x68, 0x65, 0x72, 0x65]
    || w == [0x65, 0x76, 0x65, 0x72, 0x79, 0x6F, 0x6E, 0x65]
    || w == [0x63, 0x68, 0x61, 0x6E, 0x6E, 0x65, 0x6C]
  }

  /** It highlights a mention: of the reader, if it names them or a group of theirs. */
  ghost predicate IsMention(text: Text, mentions: seq<Ref>, reader: Reader, c: Claim) {
    exists m <- mentions ::
      && NamedAt(text, m.name, c.start) && c.end == c.start + 1 + |m.name|
      && c.kind == if reader.selfId == Some(m.id) || m.id in reader.groups then Self else Other
  }

  ghost predicate IsCall(text: Text, c: Claim) {
    c.kind == Self && exists w: Text :: CallsAll(w) && CalledAt(text, w, c.start) && c.end == c.start + 1 + |w|
  }

  ghost predicate IsKeyword(
    text: Text, keywords: seq<Text>, fold: Text -> Text, word: CodeUnit -> bool, c: Claim)
  {
    && c.kind == Keyword
    && exists k <- keywords ::
         IsMatch(FoldFrom(text, 0, fold), OffsetsFrom(text, 0, fold), word, k, (c.start, c.end))
  }

  // ---- Each highlight has its reason ----

  lemma NeedleStands(text: Text, name: Text, i: nat)
    ensures OccursAt(text, Needle(name), i) && StartBoundaryAt(text, i) <==> NamedAt(text, name, i)
  {
    var needle := Needle(name);
    assert needle[0] == 0x40 && needle[1..] == name;
    if i + |needle| <= |text| {
      var there := text[i..i + |needle|];
      assert there == [text[i]] + text[i + 1..i + 1 + |name|];
      assert there[0] == text[i] && there[1..] == text[i + 1..i + 1 + |name|];
    }
  }

  lemma CandidateStands(text: Text, name: Text, kind: Kind, ends: bool, c: Claim)
    requires c in Candidates(text, Visited(text, Needle(name)), |Needle(name)|, kind, ends)
    ensures NamedAt(text, name, c.start) && c.end == c.start + 1 + |name| && c.kind == kind
    ensures ends ==> CalledAt(text, name, c.start)
  {
    hide Candidates, Visited, OccursAt;
    CandidatesAre(text, Visited(text, Needle(name)), |Needle(name)|, kind, ends, c);
    VisitedAre(text, Needle(name));
    OccursThere(text, Needle(name), c.start);
    NeedleStands(text, name, c.start);
  }

  lemma OccursThere(text: Text, needle: Text, i: nat)
    requires i + |needle| <= |text| && text[i..i + |needle|] == needle
    ensures OccursAt(text, needle, i)
  {
  }

  lemma {:induction false} MentionStands(text: Text, mentions: seq<Ref>, reader: Reader, c: Claim)
    requires c in MentionCandidates(text, mentions, reader)
    ensures IsMention(text, mentions, reader, c)
  {
    hide Candidates, NamedAt, Visited;
    var init, m := mentions[..|mentions| - 1], mentions[|mentions| - 1];
    assert mentions == init + [m];
    if c in MentionCandidates(text, init, reader) {
      MentionStands(text, init, reader, c);
      assert forall x :: x in init ==> x in mentions;
    } else {
      CandidateStands(text, m.name, KindOf(reader, m), false, c);
      assert m in mentions;
    }
  }

  lemma {:induction false} BroadcastStands(text: Text, words: seq<Text>, c: Claim) returns (w: Text)
    requires c in BroadcastCandidates(text, words)
    ensures w in words && CalledAt(text, w, c.start) && c.end == c.start + 1 + |w| && c.kind == Self
  {
    hide Candidates, CalledAt, NamedAt, Visited;
    var init := words[..|words| - 1];
    if c in BroadcastCandidates(text, init) {
      w := BroadcastStands(text, init, c);
    } else {
      w := words[|words| - 1];
      CandidateStands(text, w, Self, true, c);
    }
  }

  lemma CallStands(text: Text, c: Claim)
    requires c in BroadcastCandidates(text, BROADCAST)
    ensures IsCall(text, c)
  {
    hide BroadcastCandidates, CalledAt;
    var w := BroadcastStands(text, BROADCAST, c);
    assert CallsAll(w);
  }

  /** Nothing is highlighted but mentions, calls and keywords, each from end to end and
      in its own kind, and no two highlights share a unit. */
  lemma HighlightsAre(
    text: Text, mentions: seq<Ref>, reader: Reader, keywords: seq<Text>,
    fold: Text -> Text, word: CodeUnit -> bool, c: Claim)
    requires Searchable(keywords)
    requires c in Claimed(CandidatesFor(text, mentions, reader, keywords, fold, word))
    ensures IsMention(text, mentions, reader, c) || IsCall(text, c) || IsKeyword(text, keywords, fold, word, c)
    ensures Apart(Claimed(CandidatesFor(text, mentions, reader, keywords, fold, word)))
  {
    hide Claimed, MentionCandidates, BroadcastCandidates, KeywordMatches, KeywordCandidates, IsMention, IsCall, IsMatch;
    var sorted, ranges := Sort(mentions, Longest), KeywordMatches(text, keywords, fold, word);
    ClaimedApart(CandidatesFor(text, mentions, reader, keywords, fold, word));
    if c in MentionCandidates(text, sorted, reader) {
      MentionStands(text, sorted, reader, c);
      SortedMentions(text, mentions, reader, c);
    } else if c in BroadcastCandidates(text, BROADCAST) {
      CallStands(text, c);
    } else {
      KeywordCandidatesAre(ranges, c);
      KeywordMatchesAre(text, keywords, fold, word, (c.start, c.end));
    }
  }

  lemma SortedMentions(text: Text, mentions: seq<Ref>, reader: Reader, c: Claim)
    requires IsMention(text, Sort(mentions, Longest), reader, c)
    ensures IsMention(text, mentions, reader, c)
  {
    hide Sort, NamedAt;
    SortMembers(mentions, Longest);
    var sorted := Sort(mentions, Longest);
    var m :| m in sorted && NamedAt(text, m.name, c.start) && c.end == c.start + 1 + |m.name|
      && c.kind == if reader.selfId == Some(m.id) || m.id in reader.groups then Self else Other;
    assert m in mentions;
  }

  // ---- Nothing found is lost ----

  /** A mention is highlighted in its kind, or shares a unit with the highlight of a
      mention at least as long. */
  lemma MentionShown(
    text: Text, mentions: seq<Ref>, reader: Reader, keywords: seq<Text>,
    fold: Text -> Text, word: CodeUnit -> bool, m: Ref, i: nat)
    requires Searchable(keywords)
    requires m in mentions && NamedAt(text, m.name, i) && i in Visited(text, [0x40] + m.name)
    ensures var claims := Claimed(CandidatesFor(text, mentions, reader, keywords, fold, word));
      var kind := if reader.selfId == Some(m.id) || m.id in reader.groups then Self else Other;
      || Claim(i, i + 1 + |m.name|, kind) in claims
      || exists t <- claims :: IsMention(text, mentions, reader, t)
           && i < t.end && t.start < i + 1 + |m.name| <= i + t.end - t.start
  {
    hide Claimed, MentionCandidates, Visited, KeywordMatches, Sort, IsMention;
    NeedleStands(text, m.name, i);
    hide NamedAt, StartBoundaryAt;
    var sorted := Sort(mentions, Longest);
    SortMembers(mentions, Longest);
    OccurrenceIsCandidate(text, sorted, reader, m, i);
    var cs := MentionCandidates(text, sorted, reader);
    var k :| 0 <= k < |cs| && cs[k] == Claim(i, i + |Needle(m.name)|, KindOf(reader, m));
    LongerMentionWins(text, mentions, reader, KeywordMatches(text, keywords, fold, word), k);
    var claims := Claimed(CandidatesFor(text, mentions, reader, keywords, fold, word));
    if GaveWay(cs, claims, k) {
      var j: nat :| j < k && cs[j] in claims && cs[k].start < cs[j].end && cs[j].start < cs[k].end
        && cs[j].end - cs[j].start >= cs[k].end - cs[k].start;
      MentionStands(text, sorted, reader, cs[j]);
      SortedMentions(text, mentions, reader, cs[j]);
    }
  }

  /** A call is highlighted as the reader's own, or shares a unit with the highlight of a
      mention or of another call. */
  lemma BroadcastShown(
    text: Text, mentions: seq<Ref>, reader: Reader, keywords: seq<Text>,
    fold: Text -> Text, word: CodeUnit -> bool, w: Text, i: nat)
    requires Searchable(keywords) && CallsAll(w) && CalledAt(text, w, i) && i in Visited(text, [0x40] + w)
    ensures var claims := Claimed(CandidatesFor(text, mentions, reader, keywords, fold, word));
      || Claim(i, i + 1 + |w|, Self) in claims
      || exists t <- claims :: (IsMention(text, mentions, reader, t) || IsCall(text, t))
           && i < t.end && t.start < i + 1 + |w|
  {
    hide Claimed, MentionCandidates, BroadcastCandidates, Visited, KeywordMatches, Sort, IsMention, IsCall;
    CallIsWord(w);
    CallEnds(text, w, i);
    hide NamedAt, CalledAt, CallsAll, StartBoundaryAt, EndBoundary;
    var c := Claim(i, i + |Needle(w)|, Self);
    BroadcastIsCandidate(text, BROADCAST, w, i);
    var sorted := Sort(mentions, Longest);
    var early := MentionCandidates(text, sorted, reader) + BroadcastCandidates(text, BROADCAST);
    var all := CandidatesFor(text, mentions, reader, keywords, fold, word);
    CandidateShown(early, c);
    EarlyAreClaimed(early, all);
    if t :| t in Claimed(early) && c.start < t.end && t.start < c.end {
      PrefixMember(Claimed(early), Claimed(all), t);
      ClaimedApart(early);
      EarlyIs(text, mentions, reader, t);
    } else {
      PrefixMember(Claimed(early), Claimed(all), c);
    }
  }

  lemma CallIsWord(w: Text)
    requires CallsAll(w)
    ensures w in BROADCAST
  {
    assert BROADCAST[0] in BROADCAST && BROADCAST[1] in BROADCAST && BROADCAST[2] in BROADCAST;
  }

  lemma CallEnds(text: Text, w: Text, i: nat)
    requires CalledAt(text, w, i)
    ensures StartBoundaryAt(text, i) && EndBoundary(text, i + |Needle(w)|)
  {
    NeedleStands(text, w, i);
  }

  lemma EarlyAreClaimed(early: seq<Claim>, all: seq<Claim>)
    requires early <= all
    ensures Claimed(early) <= Claimed(all)
  {
    ClaimedGrows(early, all);
  }

  lemma EarlyIs(text: Text, mentions: seq<Ref>, reader: Reader, t: Claim)
    requires t in MentionCandidates(text, Sort(mentions, Longest), reader) + BroadcastCandidates(text, BROADCAST)
    ensures IsMention(text, mentions, reader, t) || IsCall(text, t)
  {
    hide MentionCandidates, BroadcastCandidates, Sort, IsMention, IsCall;
    if t in MentionCandidates(text, Sort(mentions, Longest), reader) {
      MentionStands(text, Sort(mentions, Longest), reader, t);
      SortedMentions(text, mentions, reader, t);
    } else {
      CallStands(text, t);
    }
  }

  /** A keyword standing as a whole word is highlighted, or shares a unit with another
      highlight. */
  lemma KeywordShown(
    text: Text, mentions: seq<Ref>, reader: Reader, keywords: seq<Text>,
    fold: Text -> Text, word: CodeUnit -> bool, k: Text, r: Range)
    requires Searchable(keywords)
    requires k in keywords && IsMatch(FoldFrom(text, 0, fold), OffsetsFrom(text, 0, fold), word, k, r)
    ensures Shown(Claimed(CandidatesFor(text, mentions, reader, keywords, fold, word)), Claim(r.0, r.1, Keyword))
  {
    hide Claimed, KeywordMatches, IsMatch, Shown;
    var ranges := KeywordMatches(text, keywords, fold, word);
    KeywordMatchesAre(text, keywords, fold, word, r);
    assert r in ranges;
    KeywordCandidatesAre(ranges, Claim(r.0, r.1, Keyword));
    CandidateShown(CandidatesFor(text, mentions, reader, keywords, fold, word), Claim(r.0, r.1, Keyword));
  }

  // ---- The plain text between ----

  /** Plain text is never empty, and never in two spans where one would do. */
  predicate PlainIsWhole(spans: seq<Span>) {
    forall i :: 0 <= i < |spans| && spans[i].kind.None? ==>
      spans[i].text != [] && (i + 1 < |spans| ==> spans[i + 1].kind.Some?)
  }

  lemma {:induction false} SpansAlternate(text: Text, taken: seq<Claim>)
    requires Within(taken, |text|)
    ensures var spans := SpansOf(text, taken);
      PlainIsWhole(spans) && (spans != [] ==> spans[|spans| - 1].kind.Some?)
  {
    if taken != [] {
      var init, c := taken[..|taken| - 1], taken[|taken| - 1];
      SpansAlternate(text, init);
      var before, more := SpansOf(text, init), Pieces(text, Cursor(init), c);
      assert PlainIsWhole(more) && more[|more| - 1].kind.Some?;
      assert SpansOf(text, taken) == before + more;
      assert PlainIsWhole(before + more);
    }
  }

  lemma PlainSpans(text: Text, claims: seq<Claim>)
    requires Within(claims, |text|)
    ensures SpansFor(text, claims) == [Span([], None)] || PlainIsWhole(SpansFor(text, claims))
  {
    SortWithin(claims, |text|);
    var taken := Sort(claims, By);
    SpansAlternate(text, taken);
    if claims != [] {
      var spans, rest := SpansOf(text, taken), Rest(text, Cursor(taken));
      assert SpansFor(text, claims) == spans + rest;
      assert PlainIsWhole(spans + rest);
    }
  }
}
