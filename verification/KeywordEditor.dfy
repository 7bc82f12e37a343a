/**
 What a reader may list as a keyword, and what the highlighter is then handed.
 `fold` and `space` are the platform's.
 */
module KeywordEditor {
  import opened Options
  import opened StableSort
  import opened TextSearch
  import opened Fold
  import opened Keywords

  const LIMIT := 50

  datatype Problem = Length | Prefix | Duplicate | Full

  function TrimLeft(t: Text, space: CodeUnit -> bool): Text {
    if t != [] && space(t[0]) then TrimLeft(t[1..], space) else t
  }

  function TrimRight(t: Text, space: CodeUnit -> bool): Text {
    if t != [] && space(t[|t| - 1]) then TrimRight(t[..|t| - 1], space) else t
  }

  function Trim(t: Text, space: CodeUnit -> bool): Text { TrimRight(TrimLeft(t, space), space) }

  function CodePoints(t: Text, i: nat): nat
    requires i <= |t|
    decreases |t| - i
  {
    if i == |t| then 0 else 1 + CodePoints(t, i + CharLen(t, i))
  }

  function FoldKeyword(keyword: Text, fold: Text -> Text, space: CodeUnit -> bool): Text {
    fold(Trim(keyword, space))
  }

  /** The length is counted before folding. */
  function KeywordProblem(
    keyword: Text, listed: seq<Text>, fold: Text -> Text, space: CodeUnit -> bool): Option<Problem>
  {
    var word := Trim(keyword, space);
    var length := CodePoints(word, 0);
    if length < 2 || length > 64 then Some(Length)
    else if word[0] == 0x40 || word[0] == 0x23 then Some(Prefix)
    else if exists i :: 0 <= i < |listed| && FoldKeyword(listed[i], fold, space) == FoldKeyword(word, fold, space)
    then Some(Duplicate)
    else if |listed| >= LIMIT then Some(Full)
    else None
  }

  // ---- What the editor lets in ----

  /** Without the space at both ends, and only that. */
  lemma {:induction false} TrimRightIs(t: Text, x: nat, b: nat, space: CodeUnit -> bool) returns (y: nat)
    requires x <= b <= |t|
    ensures x <= y <= b && TrimRight(t[x..b], space) == t[x..y]
    ensures (forall k :: y <= k < b ==> space(t[k])) && (x < y ==> !space(t[y - 1]))
    decreases b - x
  {
    if x < b && space(t[b - 1]) {
      assert t[x..b][..b - x - 1] == t[x..b - 1];
      y := TrimRightIs(t, x, b - 1, space);
    } else {
      y := b;
    }
  }

  lemma {:induction false} TrimLeftIs(t: Text, a: nat, space: CodeUnit -> bool) returns (x: nat)
    requires a <= |t|
    ensures a <= x <= |t| && TrimLeft(t[a..], space) == t[x..]
    ensures (forall k :: a <= k < x ==> space(t[k])) && (x < |t| ==> !space(t[x]))
    decreases |t| - a
  {
    if a < |t| && space(t[a]) {
      assert t[a..][1..] == t[a + 1..];
      x := TrimLeftIs(t, a + 1, space);
    } else {
      x := a;
    }
  }

  lemma TrimIs(t: Text, space: CodeUnit -> bool) returns (x: nat, y: nat)
    ensures x <= y <= |t| && Trim(t, space) == t[x..y]
    ensures forall k :: 0 <= k < x || y <= k < |t| ==> space(t[k])
    ensures x < y ==> !space(t[x]) && !space(t[y - 1])
  {
    hide TrimLeft, TrimRight;
    assert t[0..] == t;
    x := TrimLeftIs(t, 0, space);
    assert t[x..|t|] == t[x..];
    y := TrimRightIs(t, x, |t|, space);
  }

  predicate Bare(w: Text, space: CodeUnit -> bool) { w != [] && !space(w[0]) && !space(w[|w| - 1]) }

  lemma BareStays(w: Text, space: CodeUnit -> bool)
    requires Bare(w, space)
    ensures Trim(w, space) == w
  {
    var x, y := TrimIs(w, space);
  }

  /** The places at which a character starts. */
  ghost function Starts(t: Text, i: nat): set<nat> {
    set p: nat | i <= p < |t| && Boundary(t, i, p)
  }

  lemma {:induction false} CodePointsCount(t: Text, i: nat)
    requires i <= |t|
    ensures CodePoints(t, i) == |Starts(t, i)|
    decreases |t| - i
  {
    if i < |t| {
      var next := i + CharLen(t, i);
      CodePointsCount(t, next);
      forall p: nat ensures p in Starts(t, i) <==> p == i || p in Starts(t, next) {
        assert Boundary(t, i, p) <==> i == p || Boundary(t, next, p);
        if Boundary(t, next, p) { BoundaryFrom(t, next, p); }
      }
      assert Starts(t, i) == {i} + Starts(t, next);
    } else {
      assert Starts(t, i) == {};
    }
  }

  lemma {:induction false} BoundaryFrom(t: Text, i: nat, p: nat)
    requires Boundary(t, i, p)
    ensures i <= p
    decreases |t| - i
  {
    if i != p { BoundaryFrom(t, i + CharLen(t, i), p); }
  }

  /** Two to 64 characters, bare at both ends, and not beginning as a mention or a
      channel does. */
  ghost predicate Fits(w: Text, space: CodeUnit -> bool) {
    && Bare(w, space) && w[0] != 0x40 && w[0] != 0x23
    && 2 <= |Starts(w, 0)| <= 64
  }

  /** A list the editor keeps: at most fifty keywords that fit, no two folding alike. */
  ghost predicate ListFits(listed: seq<Text>, fold: Text -> Text, space: CodeUnit -> bool) {
    && |listed| <= 50 && (forall i :: 0 <= i < |listed| ==> Fits(listed[i], space))
    && forall i, j :: 0 <= i < j < |listed| ==> fold(listed[i]) != fold(listed[j])
  }

  /** What is typed is accepted exactly if the list, with it, is still one to keep. */
  lemma AcceptedIff(draft: Text, listed: seq<Text>, fold: Text -> Text, space: CodeUnit -> bool)
    requires ListFits(listed, fold, space)
    ensures KeywordProblem(draft, listed, fold, space) == None
       <==> ListFits(listed + [Trim(draft, space)], fold, space)
  {
    hide TrimLeft, TrimRight, Trim, Starts, CodePoints;
    var word, more := Trim(draft, space), listed + [Trim(draft, space)];
    var x, y := TrimIs(draft, space);
    CodePointsCount(word, 0);
    EmptyIsShort(word);
    if word != [] { BareStays(word, space); }
    forall i | 0 <= i < |listed| ensures FoldKeyword(listed[i], fold, space) == fold(more[i]) {
      BareStays(listed[i], space);
    }
    assert more[|listed|] == word;
    if KeywordProblem(draft, listed, fold, space) == None {
      forall i, j | 0 <= i < j < |more| ensures fold(more[i]) != fold(more[j]) {
        if j == |listed| { assert FoldKeyword(listed[i], fold, space) != FoldKeyword(word, fold, space); }
      }
    }
    if ListFits(more, fold, space) {
      assert Fits(more[|listed|], space);
      forall i | 0 <= i < |listed| ensures FoldKeyword(listed[i], fold, space) != FoldKeyword(word, fold, space) {
        assert fold(more[i]) != fold(more[|listed|]);
      }
    }
  }

  lemma EmptyIsShort(w: Text)
    ensures w == [] ==> CodePoints(w, 0) == 0
  {
  }

  // ---- What the highlighter is handed ----

  function FoldAll(keywords: seq<Text>, fold: Text -> Text, space: CodeUnit -> bool): (r: seq<Text>)
    ensures |r| == |keywords|
    ensures forall i :: 0 <= i < |r| ==> r[i] == FoldKeyword(keywords[i], fold, space)
  {
    seq(|keywords|, i requires 0 <= i < |keywords| => FoldKeyword(keywords[i], fold, space))
  }

  function LongestFirst(k: Text): int { -|k| }

  /** The store hands on the folded keywords, longest first. */
  function Stored(keywords: seq<Text>, fold: Text -> Text, space: CodeUnit -> bool): seq<Text> {
    Sort(FoldAll(keywords, fold, space), LongestFirst)
  }

  /** Handed on are the folds of all that is listed, as often as they are listed, the
      longer before the shorter. */
  lemma StoredInOrder(keywords: seq<Text>, fold: Text -> Text, space: CodeUnit -> bool)
    ensures var stored := Stored(keywords, fold, space);
      && multiset(stored) == multiset(seq(|keywords|, i requires 0 <= i < |keywords| =>
                                          FoldKeyword(keywords[i], fold, space)))
      && forall i, j :: 0 <= i < j < |stored| ==> |stored[i]| >= |stored[j]|
  {
    var folded, stored := FoldAll(keywords, fold, space), Stored(keywords, fold, space);
    SortKeeps(folded, LongestFirst);
    forall i, j | 0 <= i < j < |stored| ensures |stored[i]| >= |stored[j]| {
      assert LongestFirst(stored[i]) <= LongestFirst(stored[j]);
    }
    assert folded == seq(|keywords|, i requires 0 <= i < |keywords| => FoldKeyword(keywords[i], fold, space));
  }

  /** The highlighter hangs, on every text alike, if and only if a listed keyword
      folds to nothing. */
  lemma StoredHangsIff(
    text: Text, keywords: seq<Text>, fold: Text -> Text, space: CodeUnit -> bool, each: Text -> Text)
    ensures Hangs(text, Stored(keywords, fold, space), each)
       <==> exists i :: 0 <= i < |keywords| && FoldKeyword(keywords[i], fold, space) == []
  {
    var folded, stored := FoldAll(keywords, fold, space), Stored(keywords, fold, space);
    HangsIff(text, stored, each);
    SortMembers(folded, LongestFirst);
    if i :| 0 <= i < |keywords| && FoldKeyword(keywords[i], fold, space) == [] {
      assert folded[i] in stored;
    }
    if i :| 0 <= i < |stored| && stored[i] == [] {
      assert stored[i] in folded;
    }
  }

  /** Two combining acute accents. */
  const MARKS: Text := [0x301, 0x301]

  /** The editor takes them for a keyword of two characters, and folding drops both. */
  lemma MarksAreAccepted(fold: Text -> Text, space: CodeUnit -> bool)
    requires fold(MARKS) == [] && !space(0x301)
    ensures KeywordProblem(MARKS, [], fold, space) == None
    ensures FoldKeyword(MARKS, fold, space) == []
  {
    assert Trim(MARKS, space) == MARKS;
    assert CodePoints(MARKS, 2) == 0 && CodePoints(MARKS, 1) == 1;
  }

  /** So a list the editor accepted hangs the highlighter on every text. */
  lemma AcceptedKeywordHangs(text: Text, fold: Text -> Text, space: CodeUnit -> bool, each: Text -> Text)
    requires fold(MARKS) == [] && !space(0x301)
    ensures KeywordProblem(MARKS, [], fold, space) == None && Hangs(text, Stored([MARKS], fold, space), each)
  {
    MarksAreAccepted(fold, space);
    StoredHangsIff(text, [MARKS], fold, space, each);
    assert FoldKeyword([MARKS][0], fold, space) == [];
  }
}
