/** The words of a search: pieces between white space, stripped of punctuation. */
module QueryWords {
  import opened TextSearch

  /** Double quote, single quote, opening parenthesis. */
  predicate Opens(u: CodeUnit) { u in {0x22, 0x27, 0x28} }

  /** Quotes, closing parenthesis, comma, full stop, exclamation and question mark. */
  predicate Closes(u: CodeUnit) { u in {0x22, 0x27, 0x29, 0x2C, 0x2E, 0x21, 0x3F} }

  function TrimStart(w: Text): Text {
    if w != [] && Opens(w[0]) then TrimStart(w[1..]) else w
  }

  function TrimEnd(w: Text): Text {
    if w != [] && Closes(w[|w| - 1]) then TrimEnd(w[..|w| - 1]) else w
  }

  function PieceEnd(s: Text, i: nat, space: CodeUnit -> bool): (e: nat)
    requires i <= |s|
    ensures i <= e <= |s| && (e < |s| ==> space(s[e])) && forall k :: i <= k < e ==> !space(s[k])
    decreases |s| - i
  {
    if i == |s| || space(s[i]) then i else PieceEnd(s, i + 1, space)
  }

  function WordOf(piece: Text): Text { TrimEnd(TrimStart(piece)) }

  function WordsFrom(s: Text, i: nat, space: CodeUnit -> bool): seq<Text>
    requires i <= |s|
    decreases |s| - i
  {
    var e := PieceEnd(s, i, space);
    var w := WordOf(s[i..e]);
    (if |w| > 1 then [w] else []) + if e == |s| then [] else WordsFrom(s, e + 1, space)
  }

  /** A set keeps the first of equal words. */
  function Distinct(words: seq<Text>): seq<Text> {
    if words == [] then [] else
      var before := Distinct(words[..|words| - 1]);
      if words[|words| - 1] in before then before else before + [words[|words| - 1]]
  }

  function WordsOf(query: Text, space: CodeUnit -> bool): seq<Text> {
    Distinct(WordsFrom(query, 0, space))
  }

  /** The stretch between two spaces, or an end of the query. */
  predicate IsPiece(s: Text, space: CodeUnit -> bool, a: nat, b: nat) {
    && a <= b <= |s| && (forall k :: a <= k < b ==> !space(s[k]))
    && (a == 0 || space(s[a - 1])) && (b == |s| || space(s[b]))
  }

  predicate Leading(u: CodeUnit) { u == 0x22 || u == 0x27 || u == 0x28 }

  predicate Trailing(u: CodeUnit) {
    u == 0x22 || u == 0x27 || u == 0x29 || u == 0x2C || u == 0x2E || u == 0x21 || u == 0x3F
  }

  /** From `a` to `b`, all but `x` to `y` is taken off: only leading punctuation from the
      front and trailing punctuation from the end, and none of it is left there. */
  predicate Stripped(s: Text, a: nat, x: nat, y: nat, b: nat) {
    && a <= x <= y <= b <= |s|
    && (forall k :: a <= k < x ==> Leading(s[k])) && (forall k :: y <= k < b ==> Trailing(s[k]))
    && (x < y ==> !Leading(s[x]) && !Trailing(s[y - 1]))
  }

  predicate StandsIn(query: Text, space: CodeUnit -> bool, w: Text, a: nat, x: nat, y: nat, b: nat) {
    IsPiece(query, space, a, b) && Stripped(query, a, x, y, b) && query[x..y] == w
  }

  /** A piece of the query without the punctuation around it, two units or more. */
  ghost predicate IsWord(query: Text, space: CodeUnit -> bool, w: Text) {
    |w| > 1 && exists a: nat, x: nat, y: nat, b: nat :: StandsIn(query, space, w, a, x, y, b)
  }

  lemma {:induction false} TrimStartIs(s: Text, a: nat, b: nat) returns (x: nat)
    requires a <= b <= |s|
    ensures a <= x <= b && TrimStart(s[a..b]) == s[x..b]
    ensures (forall k :: a <= k < x ==> Leading(s[k])) && (x < b ==> !Leading(s[x]))
    decreases b - a
  {
    if a < b && Opens(s[a]) {
      assert s[a..b][1..] == s[a + 1..b];
      x := TrimStartIs(s, a + 1, b);
    } else {
      x := a;
    }
  }

  lemma {:induction false} TrimEndIs(s: Text, x: nat, b: nat) returns (y: nat)
    requires x <= b <= |s|
    ensures x <= y <= b && TrimEnd(s[x..b]) == s[x..y]
    ensures (forall k :: y <= k < b ==> Trailing(s[k])) && (x < y ==> !Trailing(s[y - 1]))
    decreases b - x
  {
    if x < b && Closes(s[b - 1]) {
      assert s[x..b][..b - x - 1] == s[x..b - 1];
      y := TrimEndIs(s, x, b - 1);
    } else {
      y := b;
    }
  }

  lemma WordOfIs(s: Text, a: nat, b: nat) returns (x: nat, y: nat)
    requires a <= b <= |s|
    ensures Stripped(s, a, x, y, b) && WordOf(s[a..b]) == s[x..y]
  {
    hide TrimStart, TrimEnd, Leading, Trailing;
    x := TrimStartIs(s, a, b);
    y := TrimEndIs(s, x, b);
  }

  lemma StrippedIsWordOf(s: Text, a: nat, x: nat, y: nat, b: nat)
    requires Stripped(s, a, x, y, b) && x < y
    ensures WordOf(s[a..b]) == s[x..y]
  {
    hide WordOf, Leading, Trailing;
    var i, j := WordOfIs(s, a, b);
    assert i == x && j == y;
  }

  lemma FirstPiece(s: Text, i: nat, space: CodeUnit -> bool)
    requires i <= |s|
    ensures var e, words := PieceEnd(s, i, space), WordsFrom(s, i, space);
      var w, rest := WordOf(s[i..e]), if e == |s| then [] else WordsFrom(s, e + 1, space);
      if |w| > 1 then words == [w] + rest else words == rest
  {
    hide WordOf, PieceEnd;
  }

  lemma {:induction false} WordsFromAre(s: Text, i: nat, space: CodeUnit -> bool, k: nat)
    requires i <= |s| && k < |WordsFrom(s, i, space)| && (i == 0 || space(s[i - 1]))
    ensures IsWord(s, space, WordsFrom(s, i, space)[k])
    decreases |s| - i
  {
    hide IsWord, WordOf, PieceEnd, WordsFrom;
    FirstPiece(s, i, space);
    var e := PieceEnd(s, i, space);
    var here := |WordOf(s[i..e])| > 1;
    if here && k == 0 {
      PieceIsWord(s, space, i, e);
    } else {
      WordsFromAre(s, e + 1, space, if here then k - 1 else k);
    }
  }

  lemma PieceIsWord(s: Text, space: CodeUnit -> bool, a: nat, b: nat)
    requires IsPiece(s, space, a, b) && |WordOf(s[a..b])| > 1
    ensures IsWord(s, space, WordOf(s[a..b]))
  {
    hide WordOf;
    var x, y := WordOfIs(s, a, b);
    assert StandsIn(s, space, WordOf(s[a..b]), a, x, y, b);
  }

  lemma {:induction false} DistinctIs(words: seq<Text>)
    ensures var r := Distinct(words);
      && (forall i, j :: 0 <= i < j < |r| ==> r[i] != r[j])
      && (forall i :: 0 <= i < |r| ==> r[i] in words)
      && (forall i :: 0 <= i < |words| ==> words[i] in r)
  {
    if words != [] { DistinctIs(words[..|words| - 1]); }
  }

  lemma {:induction false} PieceIsFound(s: Text, i: nat, space: CodeUnit -> bool, a: nat, b: nat)
    requires i <= a && IsPiece(s, space, a, b) && |WordOf(s[a..b])| > 1
    ensures WordOf(s[a..b]) in WordsFrom(s, i, space)
    decreases |s| - i
  {
    hide WordOf, PieceEnd, WordsFrom;
    var e := PieceEnd(s, i, space);
    FirstPiece(s, i, space);
    if i == a {
      assert e == b;
    } else {
      assert e < a;
      PieceIsFound(s, e + 1, space, a, b);
    }
  }

  /** The words searched for are exactly those of the query, none of them twice. */
  lemma WordsOfIff(query: Text, space: CodeUnit -> bool, w: Text)
    ensures w in WordsOf(query, space) <==> IsWord(query, space, w)
    ensures var words := WordsOf(query, space); forall i, j :: 0 <= i < j < |words| ==> words[i] != words[j]
  {
    hide WordOf, WordsFrom, Distinct, Leading, Trailing;
    var all := WordsFrom(query, 0, space);
    DistinctIs(all);
    if w in WordsOf(query, space) {
      var k :| 0 <= k < |all| && all[k] == w;
      WordsFromAre(query, 0, space, k);
    }
    if IsWord(query, space, w) {
      var a: nat, x: nat, y: nat, b: nat :| StandsIn(query, space, w, a, x, y, b);
      StrippedIsWordOf(query, a, x, y, b);
      PieceIsFound(query, 0, space, a, b);
      var k :| 0 <= k < |all| && all[k] == w;
    }
  }
}
