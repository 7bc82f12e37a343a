/** Escaping text for markup, and the inverse. */
module Escape {
  import opened Options

  const AMP := '&'

  /** The seven characters that never stand in escaped text. */
  predicate IsOther(c: char) { c in {'<', '>', '"', '\'', '/', '{', '}'} }

  predicate IsEscaped(c: char) { c == AMP || IsOther(c) }

  function Entity(c: char): string
    requires IsEscaped(c)
  {
    match c
    case '&' => "&amp;"
    case '<' => "&lt;"
    case '>' => "&gt;"
    case '"' => "&quot;"
    case '\'' => "&#39;"
    case '/' => "&#x2F;"
    case '{' => "&#123;"
    case _ => "&#125;"
  }

  function Written(c: char): string { if IsEscaped(c) then Entity(c) else [c] }

  function EscapeText(s: string): string {
    if s == "" then "" else Written(s[0]) + EscapeText(s[1..])
  }

  /** Each of the eight characters is written as its entity, and any other as itself. */
  lemma WrittenAs(c: char, s: string)
    ensures EscapeText([c] + s) == EscapeText([c]) + EscapeText(s)
    ensures EscapeText("&") == "&amp;" && EscapeText("<") == "&lt;" && EscapeText(">") == "&gt;"
    ensures EscapeText("\"") == "&quot;" && EscapeText("'") == "&#39;" && EscapeText("/") == "&#x2F;"
    ensures EscapeText("{") == "&#123;" && EscapeText("}") == "&#125;"
    ensures c !in {'&', '<', '>', '"', '\'', '/', '{', '}'} ==> EscapeText([c]) == [c]
  {
    forall x: char ensures EscapeText([x]) == Written(x) { assert [x][1..] == ""; }
    EscapeCons(c, s);
  }

  /** The character whose entity the text starts with. */
  function EntityAt(t: string): (c: Option<char>)
    ensures c.Some? ==> IsEscaped(c.value) && Entity(c.value) <= t
  {
    if "&amp;" <= t then Some('&')
    else if "&lt;" <= t then Some('<')
    else if "&gt;" <= t then Some('>')
    else if "&quot;" <= t then Some('"')
    else if "&#39;" <= t then Some('\'')
    else if "&#x2F;" <= t then Some('/')
    else if "&#123;" <= t then Some('{')
    else if "&#125;" <= t then Some('}')
    else None
  }

  function UnescapeText(t: string): string
    decreases |t|
  {
    if t == "" then ""
    else match EntityAt(t)
      case Some(c) => [c] + UnescapeText(t[|Entity(c)|..])
      case None => [t[0]] + UnescapeText(t[1..])
  }

  /** An entity says which character it stands for, whatever follows it. */
  lemma EntityReadsBack(c: char, rest: string)
    requires IsEscaped(c)
    ensures EntityAt(Entity(c) + rest) == Some(c)
  {
    var t := Entity(c) + rest;
    assert Entity(c) <= t;
    assert t[0] == '&' && t[1] == Entity(c)[1] && t[2] == Entity(c)[2];
    assert |Entity(c)| > 3 ==> t[3] == Entity(c)[3];
    assert |Entity(c)| > 4 ==> t[4] == Entity(c)[4];
  }

  /** An entity holds one ampersand, at its start, and none of the seven. */
  lemma EntityClean(c: char)
    requires IsEscaped(c)
    ensures Entity(c) != "" && Entity(c)[0] == AMP
    ensures forall i :: 0 <= i < |Entity(c)| ==> !IsOther(Entity(c)[i]) && (i > 0 ==> Entity(c)[i] != AMP)
  {
  }

  lemma NoEntityHere(t: string)
    requires t != "" && t[0] != AMP
    ensures EntityAt(t) == None
  {
  }

  lemma {:induction false} UnescapeEscape(s: string)
    ensures UnescapeText(EscapeText(s)) == s
  {
    hide Entity, EntityAt;
    if s != "" {
      var c, rest := s[0], EscapeText(s[1..]);
      UnescapeEscape(s[1..]);
      var t := Written(c) + rest;
      if IsEscaped(c) {
        EntityReadsBack(c, rest);
        EntityClean(c);
        assert t[|Entity(c)|..] == rest;
      } else {
        assert t[0] == c && t[1..] == rest;
        NoEntityHere(t);
      }
      assert [c] + s[1..] == s;
    }
  }

  /** None of the seven, and every ampersand starts an entity. */
  predicate WellEscaped(t: string) {
    forall i :: 0 <= i < |t| ==> !IsOther(t[i]) && (t[i] == AMP ==> EntityAt(t[i..]).Some?)
  }

  lemma WellEscapedJoin(c: char, rest: string)
    requires WellEscaped(rest)
    ensures WellEscaped(Written(c) + rest)
  {
    hide Entity, EntityAt;
    var head := Written(c);
    var t := head + rest;
    if IsEscaped(c) { EntityClean(c); }
    forall i | 0 <= i < |t| ensures !IsOther(t[i]) && (t[i] == AMP ==> EntityAt(t[i..]).Some?) {
      if i >= |head| {
        assert t[i..] == rest[i - |head|..];
        assert t[i] == rest[i - |head|];
      } else {
        assert t[i] == head[i];
        if IsEscaped(c) {
          EntityReadsBack(c, rest);
          assert i == 0 ==> t[i..] == t;
        }
      }
    }
  }

  lemma {:induction false} EscapedIsWell(s: string)
    ensures WellEscaped(EscapeText(s))
  {
    if s != "" {
      EscapedIsWell(s[1..]);
      WellEscapedJoin(s[0], EscapeText(s[1..]));
    }
  }

  lemma WellEscapedTail(t: string, n: nat)
    requires WellEscaped(t) && n <= |t|
    ensures WellEscaped(t[n..])
  {
    forall i | 0 <= i < |t[n..]| ensures !IsOther(t[n..][i]) && (t[n..][i] == AMP ==> EntityAt(t[n..][i..]).Some?) {
      assert t[n..][i] == t[n + i] && t[n..][i..] == t[n + i..];
    }
  }

  /** A well-escaped text starts with one written character, which unescaping reads. */
  lemma HeadOf(t: string) returns (c: char)
    requires t != "" && WellEscaped(t)
    ensures Written(c) <= t && UnescapeText(t) == [c] + UnescapeText(t[|Written(c)|..])
  {
    assert t[0..] == t;
    c := if t[0] == AMP then EntityAt(t).value else t[0];
    if t[0] != AMP {
      assert EntityAt(t) == None;
    }
  }

  lemma {:induction false} EscapeUnescape(t: string)
    requires WellEscaped(t)
    ensures EscapeText(UnescapeText(t)) == t
    decreases |t|
  {
    if t != "" {
      var c := HeadOf(t);
      var n := |Written(c)|;
      WellEscapedTail(t, n);
      EscapeUnescape(t[n..]);
      EscapeCons(c, UnescapeText(t[n..]));
      assert t == Written(c) + t[n..];
    }
  }

  lemma EscapeCons(c: char, s: string)
    ensures EscapeText([c] + s) == Written(c) + EscapeText(s)
  {
    assert ([c] + s)[1..] == s;
  }

  /** Escaped texts are exactly those that escaping gives back after unescaping. */
  lemma EscapeUnescapeIff(t: string)
    ensures EscapeText(UnescapeText(t)) == t <==> WellEscaped(t)
  {
    EscapedIsWell(UnescapeText(t));
    if WellEscaped(t) { EscapeUnescape(t); }
  }
}
