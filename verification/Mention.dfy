/**
 Splitting a message into plain and highlighted spans: candidates are claimed
 first come, first served; the claims are sorted and the text cut at their ends.
 */
module Mention {
  import opened Options
  import opened StableSort
  import opened TextSearch
  import opened Fold

  datatype Kind = Self | Other | Keyword

  datatype Ref = Ref(name: Text, id: nat)

  datatype Claim = Claim(start: nat, end: nat, kind: Kind)

  datatype Span = Span(text: Text, kind: Option<Kind>)

  /** The reader: their id, and the groups they are in. */
  datatype Reader = Reader(selfId: Option<nat>, groups: set<nat>)

  const AT: CodeUnit := 0x40

  /** here, everyone, channel */
  const BROADCAST: seq<Text> := [
    [0x68, 0x65, 0x72, 0x65],
    [0x65, 0x76, 0x65, 0x72, 0x79, 0x6F, 0x6E, 0x65],
    [0x63, 0x68, 0x61, 0x6E, 0x6E, 0x65, 0x6C]]

  /** The start of the text, a space, a line feed or an opening parenthesis. */
  predicate StartBoundary(text: Text, i: nat)
    requires i <= |text|
  {
    i == 0 || text[i - 1] == 0x20 || text[i - 1] == 0x0A || text[i - 1] == 0x28
  }

  predicate WordUnit(u: CodeUnit) {
    0x41 <= u <= 0x5A || 0x61 <= u <= 0x7A || 0x30 <= u <= 0x39 || u == 0x5F
  }

  predicate EndBoundary(text: Text, i: nat) { i < |text| ==> !WordUnit(text[i]) }

  predicate Overlap(a: Claim, b: Claim) { a.start < b.end && a.end > b.start }

  predicate Taken(taken: seq<Claim>, c: Claim) {
    exists i :: 0 <= i < |taken| && Overlap(c, taken[i])
  }

  /** Claimed first come, first served. */
  function Claimed(candidates: seq<Claim>): seq<Claim> {
    if candidates == [] then [] else
      var before := Claimed(candidates[..|candidates| - 1]);
      var c := candidates[|candidates| - 1];
      if Taken(before, c) then before else before + [c]
  }

  predicate AllFit(text: Text, at: seq<nat>, len: nat) {
    forall k :: 0 <= k < |at| ==> at[k] + len <= |text|
  }

  /** An occurrence counts at a boundary of words; only for some kinds must one follow too. */
  predicate IsCandidate(text: Text, i: nat, len: nat, ends: bool)
    requires i + len <= |text|
  {
    StartBoundary(text, i) && (ends ==> EndBoundary(text, i + len))
  }

  /** The candidates among the visited occurrences of one needle. */
  function Candidates(text: Text, at: seq<nat>, len: nat, kind: Kind, ends: bool): seq<Claim>
    requires AllFit(text, at, len)
  {
    if at == [] then [] else
      var i := at[|at| - 1];
      Candidates(text, at[..|at| - 1], len, kind, ends)
      + if IsCandidate(text, i, len, ends) then [Claim(i, i + len, kind)] else []
  }

  function KindOf(reader: Reader, m: Ref): Kind {
    if reader.selfId == Some(m.id) || m.id in reader.groups then Self else Other
  }

  function Needle(name: Text): Text { [AT] + name }

  function Visited(text: Text, needle: Text): (at: seq<nat>)
    requires needle != []
    ensures AllFit(text, at, |needle|)
  {
    ScanVisits(text, needle, 0, |needle|);
    assert forall k :: 0 <= k < |Scan(text, needle, 0, |needle|)| ==>
        OccursAt(text, needle, Scan(text, needle, 0, |needle|)[k]);
    Scan(text, needle, 0, |needle|)
  }

  /** Of the occurrences those are visited that begin where the one before has ended: any
      other begins inside one that is visited. */
  lemma VisitedAre(text: Text, needle: Text)
    requires needle != []
    ensures var at := Visited(text, needle);
      && (forall i <- at :: i + |needle| <= |text| && text[i..i + |needle|] == needle)
      && Spaced(at, |needle|)
      && forall j: nat :: OccursAt(text, needle, j) ==> exists i <- at :: i <= j < i + |needle|
  {
    ScanVisits(text, needle, 0, |needle|);
    ScanSteps(text, needle, 0, |needle|);
    forall j: nat | OccursAt(text, needle, j)
      ensures exists i <- Visited(text, needle) :: i <= j < i + |needle|
    {
      ScanCovers(text, needle, 0, |needle|, j);
      var i :| i in Scan(text, needle, 0, |needle|) && i <= j < i + |needle|;
      assert i in Visited(text, needle);
    }
  }

  function MentionCandidates(text: Text, mentions: seq<Ref>, reader: Reader): seq<Claim> {
    if mentions == [] then [] else
      var m := mentions[|mentions| - 1];
      var needle := Needle(m.name);
      MentionCandidates(text, mentions[..|mentions| - 1], reader)
      + Candidates(text, Visited(text, needle), |needle|, KindOf(reader, m), false)
  }

  function BroadcastCandidates(text: Text, words: seq<Text>): seq<Claim> {
    if words == [] then [] else
      var needle := Needle(words[|words| - 1]);
      BroadcastCandidates(text, words[..|words| - 1])
      + Candidates(text, Visited(text, needle), |needle|, Self, true)
  }

  function KeywordCandidates(ranges: seq<Range>): seq<Claim> {
    if ranges == [] then [] else
      var (start, end) := ranges[|ranges| - 1];
      KeywordCandidates(ranges[..|ranges| - 1]) + [Claim(start, end, Keyword)]
  }

  function Longest(m: Ref): int { -|m.name| }

  function AllCandidates(text: Text, mentions: seq<Ref>, reader: Reader, keywords: seq<Range>): seq<Claim> {
    MentionCandidates(text, Sort(mentions, Longest), reader)
    + BroadcastCandidates(text, BROADCAST)
    + KeywordCandidates(keywords)
  }

  // ---- Claims ----

  predicate Apart(taken: seq<Claim>) {
    forall i, j :: 0 <= i < j < |taken| ==> !(taken[i].start < taken[j].end && taken[j].start < taken[i].end)
  }

  lemma {:induction false} ClaimedApart(candidates: seq<Claim>)
    ensures Apart(Claimed(candidates))
    ensures forall i :: 0 <= i < |Claimed(candidates)| ==> Claimed(candidates)[i] in candidates
  {
    if candidates != [] {
      var init := candidates[..|candidates| - 1];
      ClaimedApart(init);
      assert candidates == init + [candidates[|candidates| - 1]];
    }
  }

  lemma {:induction false} ClaimedGrows(before: seq<Claim>, candidates: seq<Claim>)
    requires before <= candidates
    ensures Claimed(before) <= Claimed(candidates)
  {
    if before != candidates { ClaimedGrows(before, candidates[..|candidates| - 1]); }
  }

  lemma ClaimOne(candidates: seq<Claim>, c: Claim)
    ensures var before := Claimed(candidates);
      Claimed(candidates + [c]) == if Taken(before, c) then before else before + [c]
  {
    assert (candidates + [c])[..|candidates|] == candidates;
  }

  lemma PrefixMember(a: seq<Claim>, b: seq<Claim>, c: Claim)
    requires a <= b && c in a
    ensures c in b
  {
    var i :| 0 <= i < |a| && a[i] == c;
    assert b[i] == c;
  }

  /** Every candidate is claimed, or overlaps a claim made before its turn. */
  lemma EveryCandidateCounts(before: seq<Claim>, c: Claim, candidates: seq<Claim>)
    requires before + [c] <= candidates
    ensures c in Claimed(candidates) || Taken(Claimed(before), c)
    ensures Claimed(before) <= Claimed(candidates)
  {
    ClaimedGrows(before, candidates);
    ClaimedGrows(before + [c], candidates);
    ClaimOne(before, c);
    if !Taken(Claimed(before), c) { PrefixMember(Claimed(before) + [c], Claimed(candidates), c); }
  }

  // ---- What becomes a candidate ----

  predicate StartBoundaryAt(text: Text, i: nat) { i <= |text| && StartBoundary(text, i) }

  /** Exactly the visited occurrences with the boundaries they need. */
  lemma {:induction false} CandidatesAre(text: Text, at: seq<nat>, len: nat, kind: Kind, ends: bool, c: Claim)
    requires AllFit(text, at, len)
    ensures c in Candidates(text, at, len, kind, ends) <==>
      && c.kind == kind && c.start in at && c.end == c.start + len && StartBoundaryAt(text, c.start)
      && (ends ==> EndBoundary(text, c.end))
  {
    if at != [] {
      hide StartBoundary, EndBoundary;
      var init, last := at[..|at| - 1], at[|at| - 1];
      CandidatesAre(text, init, len, kind, ends, c);
      assert at == init + [last];
      assert c.start in at <==> c.start in init || c.start == last;
    }
  }

  /** Longer labels are tried first: whatever a mention's occurrence is turned away
      for was claimed by a label at least as long. */
  predicate NoLonger(candidates: seq<Claim>) {
    forall i, j :: 0 <= i < j < |candidates| ==>
      candidates[i].end - candidates[i].start >= candidates[j].end - candidates[j].start
  }

  lemma {:induction false} CandidatesLength(text: Text, at: seq<nat>, len: nat, kind: Kind, ends: bool)
    requires AllFit(text, at, len)
    ensures forall i :: 0 <= i < |Candidates(text, at, len, kind, ends)| ==>
      var c := Candidates(text, at, len, kind, ends)[i]; c.end - c.start == len && c.end <= |text|
  {
    if at != [] { CandidatesLength(text, at[..|at| - 1], len, kind, ends); }
  }

  lemma {:induction false} LongestFirst(text: Text, mentions: seq<Ref>, reader: Reader)
    requires SortedBy(mentions, Longest)
    ensures var cs := MentionCandidates(text, mentions, reader);
      && NoLonger(cs)
      && forall i :: 0 <= i < |cs| ==>
           cs[i].end <= |text| && (mentions != [] && cs[i].end - cs[i].start >= |mentions[|mentions| - 1].name| + 1)
  {
    if mentions != [] {
      var init, m := mentions[..|mentions| - 1], mentions[|mentions| - 1];
      LongestFirst(text, init, reader);
      var needle := Needle(m.name);
      CandidatesLength(text, Visited(text, needle), |needle|, KindOf(reader, m), false);
      if init != [] { assert Longest(init[|init| - 1]) <= Longest(m); }
    }
  }

  lemma {:induction false} ClaimedFrom(candidates: seq<Claim>, i: nat) returns (j: nat)
    requires i < |Claimed(candidates)|
    ensures j < |candidates| && candidates[j] == Claimed(candidates)[i]
  {
    var init := candidates[..|candidates| - 1];
    if i < |Claimed(init)| { j := ClaimedFrom(init, i); } else { j := |candidates| - 1; }
  }

  /** The candidate at `k` met an earlier one, itself claimed and at least as long. */
  ghost predicate GaveWay(candidates: seq<Claim>, claimed: seq<Claim>, k: nat)
    requires k < |candidates|
  {
    exists j: nat :: j < k && candidates[j] in claimed
      && candidates[k].start < candidates[j].end && candidates[j].start < candidates[k].end
      && candidates[j].end - candidates[j].start >= candidates[k].end - candidates[k].start
  }

  /** Where no candidate is longer than one before it, one that is not claimed gave
      way to an earlier one at least as long as itself. */
  lemma GivesWayToLonger(candidates: seq<Claim>, k: nat)
    requires NoLonger(candidates) && k < |candidates|
    ensures candidates[k] in Claimed(candidates) || GaveWay(candidates, Claimed(candidates), k)
  {
    hide Claimed;
    var earlier, c := candidates[..k], candidates[k];
    assert earlier + [c] == candidates[..k + 1];
    EveryCandidateCounts(earlier, c, candidates);
    var before := Claimed(earlier);
    if Taken(before, c) {
      var i :| 0 <= i < |before| && Overlap(c, before[i]);
      var j := ClaimedFrom(earlier, i);
      assert before[i] == candidates[j];
      PrefixMember(before, Claimed(candidates), before[i]);
      assert GaveWay(candidates, Claimed(candidates), k);
    }
  }

  /** An occurrence of a mention is highlighted, or gave way to an earlier mention
      that is highlighted and at least as long. */
  lemma LongerMentionWins(text: Text, mentions: seq<Ref>, reader: Reader, keywords: seq<Range>, k: nat)
    requires k < |MentionCandidates(text, Sort(mentions, Longest), reader)|
    ensures var cs := MentionCandidates(text, Sort(mentions, Longest), reader);
      var claimed := Claimed(AllCandidates(text, mentions, reader, keywords));
      cs[k] in claimed || GaveWay(cs, claimed, k)
  {
    var sorted := Sort(mentions, Longest);
    SortKeeps(mentions, Longest);
    LongestFirst(text, sorted, reader);
    var cs := MentionCandidates(text, sorted, reader);
    var all := AllCandidates(text, mentions, reader, keywords);
    GivesWayToLonger(cs, k);
    assert cs <= all;
    ClaimedGrows(cs, all);
    forall c: Claim | c in Claimed(cs) ensures c in Claimed(all) { PrefixMember(Claimed(cs), Claimed(all), c); }
  }

  // ---- Spans ----

  function Join(spans: seq<Span>): Text {
    if spans == [] then [] else Join(spans[..|spans| - 1]) + spans[|spans| - 1].text
  }

  predicate Within(taken: seq<Claim>, limit: nat) {
    forall i :: 0 <= i < |taken| ==> taken[i].start <= taken[i].end <= limit
  }

  function By(c: Claim): int { c.start }

  /** Each claim begins no earlier than the one before it ends. */
  predicate Chained(taken: seq<Claim>) {
    forall i :: 0 < i < |taken| ==> taken[i - 1].end <= taken[i].start
  }

  /** The spans of the claims, in order; `cursor` is where the last one ended. */
  function SpansOf(text: Text, taken: seq<Claim>): seq<Span>
    requires Within(taken, |text|)
  {
    if taken == [] then [] else
      var init, c := taken[..|taken| - 1], taken[|taken| - 1];
      SpansOf(text, init) + Pieces(text, Cursor(init), c)
  }

  /** The plain text up to a claim, if there is any, and the claim. */
  function Pieces(text: Text, cursor: nat, c: Claim): seq<Span>
    requires cursor <= |text| && c.start <= c.end <= |text|
  {
    (if c.start > cursor then [Span(text[cursor..c.start], None)] else [])
    + [Span(text[c.start..c.end], Some(c.kind))]
  }

  function Cursor(taken: seq<Claim>): nat { if taken == [] then 0 else taken[|taken| - 1].end }

  function Rest(text: Text, cursor: nat): seq<Span>
    requires cursor <= |text|
  {
    if cursor < |text| then [Span(text[cursor..], None)] else []
  }

  function Highlighted(spans: seq<Span>): seq<Span> {
    if spans == [] then [] else
      Highlighted(spans[..|spans| - 1])
      + if spans[|spans| - 1].kind.Some? then [spans[|spans| - 1]] else []
  }

  lemma JoinSnoc(spans: seq<Span>, s: Span)
    ensures Join(spans + [s]) == Join(spans) + s.text
    ensures Highlighted(spans + [s]) == Highlighted(spans) + if s.kind.Some? then [s] else []
  {
    assert (spans + [s])[..|spans|] == spans;
  }

  /** The claims, as the text under each. */
  function Marks(text: Text, taken: seq<Claim>): seq<Span>
    requires Within(taken, |text|)
  {
    if taken == [] then [] else
      var c := taken[|taken| - 1];
      Marks(text, taken[..|taken| - 1]) + [Span(text[c.start..c.end], Some(c.kind))]
  }

  /** How many units the spans go back over. */
  function Backsteps(taken: seq<Claim>): nat {
    if taken == [] then 0 else
      var init, c := taken[..|taken| - 1], taken[|taken| - 1];
      Backsteps(init) + if c.start < Cursor(init) then Cursor(init) - c.start else 0
  }

  lemma {:induction false} SpansJoin(text: Text, taken: seq<Claim>)
    requires Within(taken, |text|)
    ensures |Join(SpansOf(text, taken))| == Cursor(taken) + Backsteps(taken)
    ensures Backsteps(taken) == 0 ==> Join(SpansOf(text, taken)) == text[..Cursor(taken)]
  {
    if taken != [] {
      var init, c := taken[..|taken| - 1], taken[|taken| - 1];
      SpansJoin(text, init);
      SpansStep(text, taken);
      if Backsteps(taken) == 0 {
        assert text[..Cursor(init)] + text[Cursor(init)..c.start] == text[..c.start];
        assert text[..c.start] + text[c.start..c.end] == text[..c.end];
      }
    }
  }

  lemma SpansStep(text: Text, taken: seq<Claim>)
    requires taken != [] && Within(taken, |text|)
    ensures var init, c := taken[..|taken| - 1], taken[|taken| - 1];
      var gap := if c.start > Cursor(init) then text[Cursor(init)..c.start] else [];
      && Join(SpansOf(text, taken)) == Join(SpansOf(text, init)) + gap + text[c.start..c.end]
      && Highlighted(SpansOf(text, taken))
           == Highlighted(SpansOf(text, init)) + [Span(text[c.start..c.end], Some(c.kind))]
  {
    hide Join, Highlighted, Pieces;
    var init, c := taken[..|taken| - 1], taken[|taken| - 1];
    PiecesJoin(text, SpansOf(text, init), Cursor(init), c);
  }

  lemma PiecesJoin(text: Text, spans: seq<Span>, cursor: nat, c: Claim)
    requires cursor <= |text| && c.start <= c.end <= |text|
    ensures var gap, mark := if c.start > cursor then text[cursor..c.start] else [], text[c.start..c.end];
      var more := spans + Pieces(text, cursor, c);
      Join(more) == Join(spans) + gap + mark && Highlighted(more) == Highlighted(spans) + [Span(mark, Some(c.kind))]
  {
    hide Join, Highlighted;
    var mark := Span(text[c.start..c.end], Some(c.kind));
    if c.start > cursor {
      var gap := Span(text[cursor..c.start], None);
      JoinSnoc(spans, gap);
      JoinSnoc(spans + [gap], mark);
      assert spans + Pieces(text, cursor, c) == (spans + [gap]) + [mark];
      assert Highlighted(spans) + [] == Highlighted(spans);
    } else {
      JoinSnoc(spans, mark);
      assert spans + Pieces(text, cursor, c) == spans + [mark];
      assert Join(spans) + [] == Join(spans);
    }
  }

  lemma {:induction false} SpansMark(text: Text, taken: seq<Claim>)
    requires Within(taken, |text|)
    ensures Highlighted(SpansOf(text, taken)) == Marks(text, taken)
  {
    if taken != [] {
      SpansMark(text, taken[..|taken| - 1]);
      SpansStep(text, taken);
    }
  }

  lemma {:induction false} ChainedIff(taken: seq<Claim>)
    ensures Backsteps(taken) == 0 <==> Chained(taken)
  {
    if taken != [] {
      var init := taken[..|taken| - 1];
      ChainedIff(init);
      if Chained(init) && |taken| > 1 && Cursor(init) <= taken[|taken| - 1].start {
        forall i | 0 < i < |taken| ensures taken[i - 1].end <= taken[i].start {
          if i < |init| { assert init[i - 1].end <= init[i].start; }
        }
      }
      if Chained(taken) {
        forall i | 0 < i < |init| ensures init[i - 1].end <= init[i].start {
          assert taken[i - 1].end <= taken[i].start;
        }
      }
    }
  }

  /** The spans cut the text into pieces, the highlighted ones being the claims, if
      and only if no claim begins before the one sorted ahead of it ends. */
  lemma SpansPartitionIff(text: Text, taken: seq<Claim>)
    requires Within(taken, |text|)
    ensures var spans := SpansOf(text, taken) + Rest(text, Cursor(taken));
      && (Join(spans) == text <==> Chained(taken))
      && Highlighted(spans) == Marks(text, taken)
  {
    hide Join, SpansOf, Highlighted, Marks, Backsteps, Chained;
    SpansJoin(text, taken);
    SpansMark(text, taken);
    ChainedIff(taken);
    var spans, at := SpansOf(text, taken), Cursor(taken);
    if at < |text| {
      JoinSnoc(spans, Span(text[at..], None));
      assert text == text[..at] + text[at..];
    } else {
      assert spans + Rest(text, at) == spans;
      assert text[..at] == text;
    }
  }

  // ---- Sorting the claims ----

  /** A claim of nothing made after a claim of something at the same place. */
  predicate Stumble(a: Claim, b: Claim) { a.start == b.start && a.start < a.end && b.end == b.start }

  predicate Stumbles(taken: seq<Claim>) {
    exists i, j :: 0 <= i < j < |taken| && Stumble(taken[i], taken[j])
  }

  lemma {:induction false} InsertChained(s: seq<Claim>, x: Claim)
    requires Chained(s) && x.start <= x.end && forall i :: 0 <= i < |s| ==> s[i].start <= s[i].end
    requires forall i :: 0 <= i < |s| ==> !Overlap(x, s[i]) && !Stumble(s[i], x)
    ensures Chained(Insert(s, x, By))
    ensures s != [] ==> Cursor(Insert(s, x, By)) in {Cursor(s), x.end}
  {
    if s != [] && x.start < s[|s| - 1].start {
      var init, last := s[..|s| - 1], s[|s| - 1];
      assert forall i :: 0 < i < |init| ==> s[i - 1].end <= s[i].start;
      InsertChained(init, x);
      ChainedSnoc(Insert(init, x, By), last);
    } else {
      ChainedSnoc(s, x);
    }
  }

  lemma ChainedSnoc(s: seq<Claim>, x: Claim)
    requires Chained(s) && Cursor(s) <= x.start
    ensures Chained(s + [x])
  {
  }

  lemma {:induction false} SortChained(taken: seq<Claim>)
    requires Apart(taken) && !Stumbles(taken) && forall i :: 0 <= i < |taken| ==> taken[i].start <= taken[i].end
    ensures Chained(Sort(taken, By))
  {
    if taken != [] {
      var init, x := taken[..|taken| - 1], taken[|taken| - 1];
      forall i, j | 0 <= i < j < |init| ensures !Overlap(init[i], init[j]) && !Stumble(init[i], init[j]) {
        assert !Overlap(taken[i], taken[j]) && !Stumble(taken[i], taken[j]);
      }
      SortChained(init);
      SortMembers(init, By);
      var s := Sort(init, By);
      forall i | 0 <= i < |s|
        ensures !Overlap(x, s[i]) && !Stumble(s[i], x) && s[i].start <= s[i].end
      {
        var k :| 0 <= k < |init| && init[k] == s[i];
        assert !Overlap(taken[k], taken[|taken| - 1]) && !Stumble(taken[k], taken[|taken| - 1]);
      }
      InsertChained(s, x);
    }
  }

  lemma {:induction false} InsertOrder(s: seq<Claim>, x: Claim, a: nat, b: nat) returns (i: nat, j: nat)
    requires a < b < |s|
    ensures i < j < |Insert(s, x, By)| && Insert(s, x, By)[i] == s[a] && Insert(s, x, By)[j] == s[b]
  {
    if By(s[|s| - 1]) <= By(x) {
      i, j := a, b;
    } else {
      InsertMembers(s[..|s| - 1], x, By);
      if b == |s| - 1 {
        i := InsertPlace(s[..b], x, a);
        j := b + 1;
      } else {
        i, j := InsertOrder(s[..|s| - 1], x, a, b);
      }
    }
  }

  lemma {:induction false} InsertPlace(s: seq<Claim>, x: Claim, a: nat) returns (i: nat)
    requires a < |s|
    ensures i < |Insert(s, x, By)| && Insert(s, x, By)[i] == s[a]
  {
    if By(s[|s| - 1]) <= By(x) {
      i := a;
    } else {
      InsertMembers(s[..|s| - 1], x, By);
      if a == |s| - 1 { i := |s|; } else { i := InsertPlace(s[..|s| - 1], x, a); }
    }
  }

  lemma {:induction false} InsertAfterEqual(s: seq<Claim>, x: Claim, a: nat) returns (i: nat, j: nat)
    requires SortedBy(s, By) && a < |s| && By(s[a]) <= By(x)
    ensures i < j < |Insert(s, x, By)| && Insert(s, x, By)[i] == s[a] && Insert(s, x, By)[j] == x
  {
    if By(s[|s| - 1]) <= By(x) {
      i, j := a, |s|;
    } else {
      i, j := InsertAfterEqual(s[..|s| - 1], x, a);
    }
  }

  /** The sort keeps the order of claims that start together. */
  lemma {:induction false} SortKeepsOrder(taken: seq<Claim>, a: nat, b: nat) returns (i: nat, j: nat)
    requires a < b < |taken| && taken[a].start == taken[b].start
    ensures var r := Sort(taken, By); i < j < |r| && r[i] == taken[a] && r[j] == taken[b]
  {
    var init, x := taken[..|taken| - 1], taken[|taken| - 1];
    var s := Sort(init, By);
    if b < |init| {
      var c, d := SortKeepsOrder(init, a, b);
      i, j := InsertOrder(s, x, c, d);
    } else {
      SortKeeps(init, By);
      SortMembers(init, By);
      assert init[a] in s;
      var c :| 0 <= c < |s| && s[c] == init[a];
      i, j := InsertAfterEqual(s, x, c);
    }
  }

  lemma {:induction false} ChainedSpan(r: seq<Claim>, i: nat, j: nat)
    requires Chained(r) && SortedBy(r, By) && i < j < |r|
    ensures r[i].end <= r[j].start
  {
    assert r[i].end <= r[i + 1].start;
    if i + 1 < j { assert By(r[i + 1]) <= By(r[j]); }
  }

  /** Claims that do not overlap end up chained exactly when none stumbles. */
  lemma SortChainedIff(taken: seq<Claim>)
    requires Apart(taken) && forall i :: 0 <= i < |taken| ==> taken[i].start <= taken[i].end
    ensures Chained(Sort(taken, By)) <==> !Stumbles(taken)
  {
    SortKeeps(taken, By);
    if Stumbles(taken) {
      var a, b :| 0 <= a < b < |taken| && Stumble(taken[a], taken[b]);
      var i, j := SortKeepsOrder(taken, a, b);
      if Chained(Sort(taken, By)) { ChainedSpan(Sort(taken, By), i, j); }
    } else {
      SortChained(taken);
    }
  }
}
