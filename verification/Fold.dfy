/**
 Searching folded text and mapping what is found back. `fold` is whatever the
 platform does to one character; it may lengthen it, shorten it or drop it.
 */
module Fold {
  import opened Options
  import opened StableSort
  import opened TextSearch
  import QueryWords

  type Range = (nat, nat)

  /** A surrogate pair is one character; anything else is one unit. */
  function CharLen(text: Text, i: nat): (n: nat)
    requires i < |text|
    ensures 1 <= n <= 2 && i + n <= |text|
  {
    if i + 1 < |text| && 0xD800 <= text[i] < 0xDC00 && 0xDC00 <= text[i + 1] < 0xE000 then 2 else 1
  }

  function CharAt(text: Text, i: nat): Text
    requires i < |text|
  {
    text[i..i + CharLen(text, i)]
  }

  function FoldFrom(text: Text, i: nat, fold: Text -> Text): Text
    requires i <= |text|
    decreases |text| - i
  {
    if i == |text| then []
    else fold(CharAt(text, i)) + FoldFrom(text, i + CharLen(text, i), fold)
  }

  function Repeat(place: nat, n: nat): (r: seq<nat>)
    ensures |r| == n
  {
    if n == 0 then [] else Repeat(place, n - 1) + [place]
  }

  lemma {:induction false} RepeatIs(place: nat, n: nat)
    ensures forall k :: 0 <= k < n ==> Repeat(place, n)[k] == place
  {
    if n > 0 { RepeatIs(place, n - 1); }
  }

  function OffsetsFrom(text: Text, i: nat, fold: Text -> Text): seq<nat>
    requires i <= |text|
    decreases |text| - i
  {
    if i == |text| then [i]
    else Repeat(i, |fold(CharAt(text, i))|) + OffsetsFrom(text, i + CharLen(text, i), fold)
  }

  predicate NonDecreasing(s: seq<nat>) { forall i, j :: 0 <= i < j < |s| ==> s[i] <= s[j] }

  /** Reading whole characters from `i` one gets to `p`. */
  predicate Boundary(text: Text, i: nat, p: nat)
    decreases |text| - i
  {
    i == p || (i < |text| && Boundary(text, i + CharLen(text, i), p))
  }

  lemma NonDecreasingJoin(a: seq<nat>, b: seq<nat>, at: nat)
    requires NonDecreasing(a) && NonDecreasing(b)
    requires (forall k :: 0 <= k < |a| ==> a[k] <= at) && (forall k :: 0 <= k < |b| ==> at <= b[k])
    ensures NonDecreasing(a + b)
  {
    var c := a + b;
    forall i, j | 0 <= i < j < |c| ensures c[i] <= c[j] {
      if i < |a| && |a| <= j { assert a[i] <= at <= b[j - |a|]; }
    }
  }

  /** The table has one place per folded unit and the text's end, in order. */
  lemma {:induction false} OffsetTable(text: Text, i: nat, fold: Text -> Text)
    requires i <= |text|
    ensures var offsets := OffsetsFrom(text, i, fold);
      && |offsets| == |FoldFrom(text, i, fold)| + 1 && NonDecreasing(offsets)
      && offsets[|offsets| - 1] == |text| && forall k :: 0 <= k < |offsets| ==> i <= offsets[k] <= |text|
    decreases |text| - i
  {
    if i < |text| {
      var next := i + CharLen(text, i);
      OffsetTable(text, next, fold);
      var head, rest := Repeat(i, |fold(CharAt(text, i))|), OffsetsFrom(text, next, fold);
      RepeatIs(i, |head|);
      NonDecreasingJoin(head, rest, i);
      assert OffsetsFrom(text, i, fold) == head + rest;
      assert (head + rest)[|head + rest| - 1] == rest[|rest| - 1];
    }
  }

  /** The unit at `k` comes from the character that starts at place `p`. */
  predicate ComesFrom(text: Text, i: nat, fold: Text -> Text, unit: CodeUnit, p: nat) {
    p < |text| && Boundary(text, i, p) && unit in fold(CharAt(text, p))
  }

  /** The place of a folded unit starts a character whose fold holds that unit. */
  lemma {:induction false} OffsetsTell(text: Text, i: nat, fold: Text -> Text, k: nat)
    requires i <= |text| && k < |FoldFrom(text, i, fold)|
    ensures k < |OffsetsFrom(text, i, fold)|
      && ComesFrom(text, i, fold, FoldFrom(text, i, fold)[k], OffsetsFrom(text, i, fold)[k])
    decreases |text| - i
  {
    hide CharAt, CharLen;
    var part, next := fold(CharAt(text, i)), i + CharLen(text, i);
    RepeatIs(i, |part|);
    if k < |part| {
      assert FoldFrom(text, i, fold)[k] == part[k] && part[k] in part;
      assert OffsetsFrom(text, i, fold)[k] == Repeat(i, |part|)[k] == i;
    } else {
      OffsetsTell(text, next, fold, k - |part|);
    }
  }

  /** Two folded units of one place belong to the fold of one character. */
  lemma {:induction false} SameOffset(text: Text, i: nat, fold: Text -> Text, a: nat, b: nat) returns (p: nat)
    requires i <= |text| && a < b < |OffsetsFrom(text, i, fold)|
    requires OffsetsFrom(text, i, fold)[a] == OffsetsFrom(text, i, fold)[b]
    ensures p < |text| && Boundary(text, i, p) && b - a < |fold(CharAt(text, p))|
    decreases |text| - i
  {
    var n, next := |fold(CharAt(text, i))|, i + CharLen(text, i);
    RepeatIs(i, n);
    OffsetTable(text, next, fold);
    if a >= n {
      p := SameOffset(text, next, fold, a - n, b - n);
    } else {
      p := i;
    }
  }

  /** A high surrogate with a low one after it. */
  predicate PairAt(text: Text, p: nat) {
    p + 1 < |text| && 0xD800 <= text[p] <= 0xDBFF && 0xDC00 <= text[p + 1] <= 0xDFFF
  }

  predicate StandsAs(folded: Text, offsets: seq<nat>, part: Text, p: nat, k: nat) {
    && k + |part| <= |folded| && folded[k..k + |part|] == part
    && k + |part| <= |offsets| && forall j :: k <= j < k + |part| ==> offsets[j] == p
  }

  lemma StandsFirst(part: Text, p: nat, folded: Text, places: seq<nat>, offsets: seq<nat>)
    requires |places| == |part| && forall j :: 0 <= j < |part| ==> places[j] == p
    ensures StandsAs(part + folded, places + offsets, part, p, 0)
  {
  }

  lemma StandsLater(head: Text, folded: Text, places: seq<nat>, offsets: seq<nat>, part: Text, p: nat, k: nat)
    requires StandsAs(folded, offsets, part, p, k) && |places| == |head|
    ensures StandsAs(head + folded, places + offsets, part, p, |head| + k)
  {
    var n := |head| + k;
    assert (head + folded)[n..n + |part|] == folded[k..k + |part|];
  }

  lemma {:induction false} CharStandsFrom(text: Text, i: nat, fold: Text -> Text, p: nat) returns (k: nat)
    requires i <= |text| && p < |text| && Boundary(text, i, p)
    ensures StandsAs(FoldFrom(text, i, fold), OffsetsFrom(text, i, fold), fold(CharAt(text, p)), p, k)
    decreases |text| - i
  {
    hide CharAt, CharLen, StandsAs;
    var head, next := fold(CharAt(text, i)), i + CharLen(text, i);
    if i == p {
      RepeatIs(i, |head|);
      StandsFirst(head, i, FoldFrom(text, next, fold), Repeat(i, |head|), OffsetsFrom(text, next, fold));
      k := 0;
    } else {
      var n := CharStandsFrom(text, next, fold, p);
      StandsLater(head, FoldFrom(text, next, fold), Repeat(i, |head|), OffsetsFrom(text, next, fold),
                  fold(CharAt(text, p)), p, n);
      k := |head| + n;
    }
  }

  /** The fold of every character stands whole in the folded text, and every unit of it
      has the place of the character: two units at a surrogate pair, else one. */
  lemma CharStands(text: Text, fold: Text -> Text, p: nat) returns (k: nat)
    requires p < |text| && Boundary(text, 0, p)
    ensures var pair := p + 1 < |text| && 0xD800 <= text[p] <= 0xDBFF && 0xDC00 <= text[p + 1] <= 0xDFFF;
      var part := fold(if pair then text[p..p + 2] else text[p..p + 1]);
      var folded, offsets := FoldFrom(text, 0, fold), OffsetsFrom(text, 0, fold);
      && k + |part| <= |folded| && folded[k..k + |part|] == part
      && k + |part| <= |offsets| && forall j :: k <= j < k + |part| ==> offsets[j] == p
  {
    k := CharStandsFrom(text, 0, fold, p);
  }

  method PushPlaces(offsets: seq<nat>, place: nat, n: nat) returns (longer: seq<nat>)
    ensures longer == offsets + Repeat(place, n)
  {
    longer := offsets;
    var i := 0;
    while i < n
      invariant i <= n && longer == offsets + Repeat(place, i)
    {
      longer := longer + [place];
      i := i + 1;
    }
  }

  /** One turn of the loop: a character's fold moves from what is left to what is done. */
  lemma FoldStep(text: Text, i: nat, fold: Text -> Text, folded: Text, offsets: seq<nat>)
    requires i < |text|
    ensures var part, next := fold(CharAt(text, i)), i + CharLen(text, i);
      && folded + FoldFrom(text, i, fold) == (folded + part) + FoldFrom(text, next, fold)
      && offsets + OffsetsFrom(text, i, fold) == (offsets + Repeat(i, |part|)) + OffsetsFrom(text, next, fold)
  {
    var part, next := fold(CharAt(text, i)), i + CharLen(text, i);
    Reassociate(folded, part, FoldFrom(text, next, fold));
    Reassociate(offsets, Repeat(i, |part|), OffsetsFrom(text, next, fold));
  }

  method FoldWithOffsets(text: Text, fold: Text -> Text) returns (folded: Text, offsets: seq<nat>)
    ensures folded == FoldFrom(text, 0, fold) && offsets == OffsetsFrom(text, 0, fold)
    ensures |offsets| == |folded| + 1 && NonDecreasing(offsets) && offsets[|folded|] == |text|
  {
    hide NonDecreasing, Repeat, CharAt, CharLen;
    offsets, folded := [], [];
    var position := 0;
    while position < |text|
      invariant position <= |text|
      invariant folded + FoldFrom(text, position, fold) == FoldFrom(text, 0, fold)
      invariant offsets + OffsetsFrom(text, position, fold) == OffsetsFrom(text, 0, fold)
    {
      var part := fold(CharAt(text, position));
      FoldStep(text, position, fold, folded, offsets);
      offsets := PushPlaces(offsets, position, |part|);
      folded := folded + part;
      position := position + CharLen(text, position);
    }
    offsets := offsets + [|text|];
    OffsetTable(text, 0, fold);
  }

  ghost predicate FirstAt(text: Text, needle: Text, i: nat) {
    OccursAt(text, needle, i) && forall j: nat :: j < i ==> !OccursAt(text, needle, j)
  }

  /** The first place the folded fragment occurs, in the original text. */
  method FragmentRange(text: Text, wanted: Text, fold: Text -> Text) returns (r: Option<Range>)
    ensures r.Some? <==> wanted != [] && exists i: nat :: OccursAt(FoldFrom(text, 0, fold), wanted, i)
    ensures r.Some? ==> exists i: nat ::
      && FirstAt(FoldFrom(text, 0, fold), wanted, i) && i + |wanted| < |OffsetsFrom(text, 0, fold)|
      && r.value == (OffsetsFrom(text, 0, fold)[i], OffsetsFrom(text, 0, fold)[i + |wanted|])
    ensures r.Some? ==> r.value.0 <= r.value.1 <= |text|
  {
    if wanted == [] {
      return None;
    }
    var folded, offsets := FoldWithOffsets(text, fold);
    IndexOfFinds(folded, wanted, 0);
    match IndexOf(folded, wanted, 0) {
      case None => return None;
      case Some(idx) =>
        assert FirstAt(folded, wanted, idx);
        assert forall j: nat :: j < |folded| ==> offsets[j] <= offsets[|folded|];
        return Some((offsets[idx], offsets[idx + |wanted|]));
    }
  }

  // ---- Ranges of several words ----

  predicate Covers(r: Range, p: nat) { r.0 <= p < r.1 }

  predicate CoveredBy(rs: seq<Range>, p: nat) { exists i :: 0 <= i < |rs| && Covers(rs[i], p) }

  predicate Proper(rs: seq<Range>, limit: nat) {
    forall i :: 0 <= i < |rs| ==> rs[i].0 < rs[i].1 <= limit
  }

  /** In order, with a gap before each. */
  predicate Separated(rs: seq<Range>) { forall i, j :: 0 <= i < j < |rs| ==> rs[i].1 < rs[j].0 }

  function Start(r: Range): int { r.0 }

  /** What the search of one word finds. */
  function Matches(at: seq<nat>, len: nat): seq<Range> {
    seq(|at|, i requires 0 <= i < |at| => (at[i], at[i] + len))
  }

  function Found(folded: Text, words: seq<Text>): seq<Range>
    requires forall w <- words :: |w| > 0
  {
    if words == [] then [] else
      var w := words[|words| - 1];
      Found(folded, words[..|words| - 1]) + Matches(Scan(folded, w, 0, |w|), |w|)
  }

  /** Merges ranges sorted by start: the same positions are covered, by ranges with
      gaps between them. */
  method MergeRanges(found: seq<Range>, limit: nat) returns (merged: seq<Range>)
    requires SortedBy(found, Start) && Proper(found, limit)
    ensures Separated(merged) && Proper(merged, limit)
    ensures forall p: nat :: CoveredBy(merged, p) <==> CoveredBy(found, p)
  {
    merged := [];
    var i := 0;
    while i < |found|
      invariant i <= |found| && Separated(merged) && Proper(merged, limit)
      invariant merged != [] ==> i > 0 && merged[|merged| - 1].0 <= found[i - 1].0
      invariant forall p: nat :: CoveredBy(merged, p) <==> CoveredBy(found[..i], p)
    {
      var (start, end) := found[i];
      var n := |merged|;
      if n > 0 && start <= merged[n - 1].1 {
        var last := merged[n - 1];
        assert Start(found[i - 1]) <= Start(found[i]);
        ExtendLast(merged, found[i], limit);
        merged := merged[n - 1 := (last.0, if end > last.1 then end else last.1)];
      } else {
        AppendApart(merged, found[i], limit);
        merged := merged + [(start, end)];
      }
      assert found[..i + 1] == found[..i] + [found[i]];
      CoverSnoc(found[..i], found[i]);
      i := i + 1;
    }
    assert found[..i] == found;
  }

  lemma ExtendLast(rs: seq<Range>, r: Range, limit: nat)
    requires rs != [] && Separated(rs) && Proper(rs, limit) && r.0 < r.1 <= limit
    requires rs[|rs| - 1].0 <= r.0 <= rs[|rs| - 1].1
    ensures var last := rs[|rs| - 1];
      var after := rs[|rs| - 1 := (last.0, if r.1 > last.1 then r.1 else last.1)];
      && Separated(after) && Proper(after, limit)
      && forall p: nat :: CoveredBy(after, p) <==> CoveredBy(rs, p) || Covers(r, p)
  {
    var last := rs[|rs| - 1];
    CoverReplaceLast(rs, (last.0, if r.1 > last.1 then r.1 else last.1), r);
  }

  lemma AppendApart(rs: seq<Range>, r: Range, limit: nat)
    requires Separated(rs) && Proper(rs, limit) && r.0 < r.1 <= limit
    requires rs != [] ==> rs[|rs| - 1].1 < r.0
    ensures Separated(rs + [r]) && Proper(rs + [r], limit)
    ensures forall p: nat :: CoveredBy(rs + [r], p) <==> CoveredBy(rs, p) || Covers(r, p)
  {
    CoverSnoc(rs, r);
    forall k | 0 <= k < |rs| ensures rs[k].1 < r.0 {
      if k < |rs| - 1 { assert rs[k].1 < rs[|rs| - 1].0; }
    }
  }

  lemma CoverSnoc(rs: seq<Range>, r: Range)
    ensures forall p: nat :: CoveredBy(rs + [r], p) <==> CoveredBy(rs, p) || Covers(r, p)
  {
    forall p: nat ensures CoveredBy(rs + [r], p) <==> CoveredBy(rs, p) || Covers(r, p) {
      if CoveredBy(rs, p) {
        var i :| 0 <= i < |rs| && Covers(rs[i], p);
        assert (rs + [r])[i] == rs[i];
      }
      assert (rs + [r])[|rs|] == r;
    }
  }

  lemma CoverReplaceLast(rs: seq<Range>, joined: Range, added: Range)
    requires rs != []
    requires forall p: nat :: Covers(joined, p) <==> Covers(rs[|rs| - 1], p) || Covers(added, p)
    ensures forall p: nat :: CoveredBy(rs[|rs| - 1 := joined], p) <==> CoveredBy(rs, p) || Covers(added, p)
  {
    var n := |rs| - 1;
    assert rs == rs[..n] + [rs[n]] && rs[n := joined] == rs[..n] + [joined];
    CoverSnoc(rs[..n], rs[n]);
    CoverSnoc(rs[..n], joined);
  }

  lemma {:induction false} FoundProper(folded: Text, words: seq<Text>)
    requires forall w <- words :: |w| > 0
    ensures Proper(Found(folded, words), |folded|)
    ensures forall p: nat :: CoveredBy(Found(folded, words), p) <==> Matched(folded, words, p)
  {
    if words != [] {
      var init, w := words[..|words| - 1], words[|words| - 1];
      assert words == init + [w];
      FoundProper(folded, init);
      ScanVisits(folded, w, 0, |w|);
      var at := Scan(folded, w, 0, |w|);
      var left, right := Found(folded, init), Matches(at, |w|);
      forall i | 0 <= i < |right| ensures right[i].0 < right[i].1 <= |folded| { assert at[i] in at; }
      forall p: nat ensures CoveredBy(left + right, p) <==> Matched(folded, words, p) {
        CoverConcat(left, right, p);
        if CoveredBy(right, p) {
          var i :| 0 <= i < |right| && Covers(right[i], p);
          assert at[i] in at && at[i] <= p < at[i] + |w| && w in words;
        }
        if Matched(folded, words, p) && !Matched(folded, init, p) {
          var x :| x in at && x <= p < x + |w|;
          var i :| 0 <= i < |at| && at[i] == x;
          assert Covers(right[i], p);
        }
      }
    }
  }

  lemma CoverConcat(a: seq<Range>, b: seq<Range>, p: nat)
    ensures CoveredBy(a + b, p) <==> CoveredBy(a, p) || CoveredBy(b, p)
  {
    if CoveredBy(a, p) { var i :| 0 <= i < |a| && Covers(a[i], p); assert (a + b)[i] == a[i]; }
    if CoveredBy(b, p) { var i :| 0 <= i < |b| && Covers(b[i], p); assert (a + b)[|a| + i] == b[i]; }
  }

  /** Some word has a visited match over the position. */
  predicate Matched(folded: Text, words: seq<Text>, p: nat)
    requires forall w <- words :: |w| > 0
  {
    exists w <- words :: exists i <- Scan(folded, w, 0, |w|) :: i <= p < i + |w|
  }

  lemma CoveredSame(a: seq<Range>, b: seq<Range>)
    requires (forall i :: 0 <= i < |a| ==> a[i] in b) && (forall i :: 0 <= i < |b| ==> b[i] in a)
    ensures forall p: nat :: CoveredBy(a, p) <==> CoveredBy(b, p)
  {
    forall p: nat ensures CoveredBy(a, p) <==> CoveredBy(b, p) {
      if CoveredBy(a, p) { var i :| 0 <= i < |a| && Covers(a[i], p); assert a[i] in b; }
      if CoveredBy(b, p) { var i :| 0 <= i < |b| && Covers(b[i], p); assert b[i] in a; }
    }
  }

  function MapBack(rs: seq<Range>, offsets: seq<nat>): seq<Range>
    requires |offsets| > 0 && Proper(rs, |offsets| - 1)
  {
    seq(|rs|, i requires 0 <= i < |rs| => (offsets[rs[i].0], offsets[rs[i].1]))
  }

  /** In order, none reaching into the next, all within the text. */
  predicate InOrder(rs: seq<Range>, limit: nat) {
    && (forall i :: 0 <= i < |rs| ==> rs[i].0 <= rs[i].1 <= limit)
    && forall i, j :: 0 <= i < j < |rs| ==> rs[i].1 <= rs[j].0
  }

  method FindAll(folded: Text, words: seq<Text>) returns (found: seq<Range>)
    requires forall w <- words :: |w| > 0
    ensures found == Found(folded, words)
  {
    found := [];
    var i := 0;
    while i < |words|
      invariant i <= |words| && found == Found(folded, words[..i])
    {
      var at := Visits(folded, words[i], |words[i]|);
      assert words[..i + 1][..i] == words[..i];
      found := found + Matches(at, |words[i]|);
      i := i + 1;
    }
    assert words[..i] == words;
  }

  method SortAndMerge(found: seq<Range>, limit: nat) returns (merged: seq<Range>)
    requires Proper(found, limit)
    ensures Separated(merged) && Proper(merged, limit)
    ensures forall p: nat :: CoveredBy(merged, p) <==> CoveredBy(found, p)
  {
    var sorted := Sort(found, Start);
    SortKeeps(found, Start);
    SortMembers(found, Start);
    forall k | 0 <= k < |sorted| ensures sorted[k].0 < sorted[k].1 <= limit {
      assert sorted[k] in found;
    }
    CoveredSame(sorted, found);
    merged := MergeRanges(sorted, limit);
  }

  lemma MappedInOrder(rs: seq<Range>, offsets: seq<nat>, limit: nat)
    requires |offsets| > 0 && Proper(rs, |offsets| - 1) && Separated(rs)
    requires NonDecreasing(offsets) && offsets[|offsets| - 1] == limit
    ensures InOrder(MapBack(rs, offsets), limit)
  {
    forall j: nat | j < |offsets| ensures offsets[j] <= limit {}
  }

  /** Every match of every word of the query, once, where the original text has it.
      `query` is folded as a whole; `merged` holds the same ranges in folded
      coordinates. */
  method WordRanges(text: Text, query: Text, fold: Text -> Text, space: CodeUnit -> bool)
    returns (ranges: seq<Range>, merged: seq<Range>)
    ensures var words, folded := QueryWords.WordsOf(query, space), FoldFrom(text, 0, fold);
      && (forall w <- words :: |w| > 0)
      && Separated(merged) && Proper(merged, |folded|)
      && (forall p: nat :: CoveredBy(merged, p) <==> Matched(folded, words, p))
      && |OffsetsFrom(text, 0, fold)| == |folded| + 1
      && |ranges| == |merged|
      && forall i :: 0 <= i < |ranges| ==>
           ranges[i] == (OffsetsFrom(text, 0, fold)[merged[i].0], OffsetsFrom(text, 0, fold)[merged[i].1])
    ensures InOrder(ranges, |text|)
  {
    var words := QueryWords.WordsOf(query, space);
    forall w | w in words ensures |w| > 1 { QueryWords.WordsOfIff(query, space, w); }
    if words == [] {
      OffsetTable(text, 0, fold);
      return [], [];
    }
    var folded, offsets := FoldWithOffsets(text, fold);
    var found := FindAll(folded, words);
    FoundProper(folded, words);
    merged := SortAndMerge(found, |folded|);
    ranges := MapBack(merged, offsets);
    MappedInOrder(merged, offsets, |text|);
  }
}
