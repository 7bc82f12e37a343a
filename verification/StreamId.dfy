/** Redis stream ids: `<millis>-<seq>`, compared as two numbers. */
module StreamId {
  import opened Options

  const U64: nat := 0x1_0000_0000_0000_0000

  datatype Id = Id(ms: nat, seqNo: nat)

  predicate Fits(id: Id) { id.ms < U64 && id.seqNo < U64 }

  predicate Less(a: Id, b: Id) { a.ms < b.ms || (a.ms == b.ms && a.seqNo < b.seqNo) }

  predicate IsDigit(c: char) { '0' <= c <= '9' }

  function DigitOf(n: nat): char
    requires n < 10
  {
    '0' + n as char
  }

  function Decimal(n: nat): string {
    if n < 10 then [DigitOf(n)] else Decimal(n / 10) + [DigitOf(n % 10)]
  }

  function Value(s: string): nat
    requires forall c <- s :: IsDigit(c)
  {
    if s == [] then 0 else
      assert IsDigit(s[|s| - 1]);
      Value(s[..|s| - 1]) * 10 + (s[|s| - 1] as int - '0' as int)
  }

  /** Digits, with an optional plus sign, that fit 64 bits. */
  function ParseU64(s: string): Option<nat> {
    var digits := if s != [] && s[0] == '+' then s[1..] else s;
    if digits != [] && (forall c <- digits :: IsDigit(c)) && Value(digits) < U64
    then Some(Value(digits)) else None
  }

  /** Where the first dash is, or the length when there is none. */
  function DashAt(s: string): (n: nat)
    ensures n <= |s| && '-' !in s[..n] && (n < |s| ==> s[n] == '-')
  {
    if s == [] || s[0] == '-' then 0 else
      var n := DashAt(s[1..]);
      assert s[..1 + n] == [s[0]] + s[1..][..n];
      1 + n
  }

  function ParseId(s: string): Option<Id> {
    var n := DashAt(s);
    if n == |s| then None else
      match (ParseU64(s[..n]), ParseU64(s[n + 1..]))
      case (Some(ms), Some(no)) => Some(Id(ms, no))
      case _ => None
  }

  function Format(id: Id): string { Decimal(id.ms) + "-" + Decimal(id.seqNo) }

  predicate IsOlder(a: string, b: string) {
    match (ParseId(a), ParseId(b))
    case (Some(x), Some(y)) => Less(x, y)
    case _ => false
  }

  lemma {:induction false} DecimalReads(n: nat)
    ensures Decimal(n) != [] && forall c <- Decimal(n) :: IsDigit(c)
    ensures Value(Decimal(n)) == n
  {
    if n < 10 {
      assert Decimal(n)[..0] == [];
      assert Value(Decimal(n)[..0]) == 0;
    } else {
      DecimalReads(n / 10);
      assert Decimal(n)[..|Decimal(n)| - 1] == Decimal(n / 10);
    }
  }

  lemma ParseDecimal(n: nat)
    requires n < U64
    ensures ParseU64(Decimal(n)) == Some(n)
  {
    DecimalReads(n);
    assert IsDigit(Decimal(n)[0]);
  }

  lemma {:induction false} DashAfter(a: string, b: string)
    requires '-' !in a
    ensures DashAt(a + "-" + b) == |a|
  {
    if a != [] {
      assert (a + "-" + b)[1..] == a[1..] + "-" + b;
      DashAfter(a[1..], b);
    }
  }

  /** Every id the server hands out reads back as itself. */
  lemma FormatReadsBack(id: Id)
    requires Fits(id)
    ensures ParseId(Format(id)) == Some(id)
  {
    var a, b := Decimal(id.ms), Decimal(id.seqNo);
    DecimalReads(id.ms);
    DashAfter(a, b);
    ParseDecimal(id.ms);
    ParseDecimal(id.seqNo);
    assert Format(id)[..|a|] == a && Format(id)[|a| + 1..] == b;
  }

  lemma SignedDecimal(n: nat)
    requires n < U64
    ensures var s := "+" + Decimal(n); ParseU64(s) == Some(n) && '-' !in s
  {
    DecimalReads(n);
    hide Decimal, Value;
    var s := "+" + Decimal(n);
    assert s[0] == '+' && s[1..] == Decimal(n);
  }

  /** A plus sign before either number is read past. */
  lemma SignedReadsBack(id: Id)
    requires Fits(id)
    ensures ParseId("+" + Decimal(id.ms) + "-" + ("+" + Decimal(id.seqNo))) == Some(id)
  {
    var a, b := "+" + Decimal(id.ms), "+" + Decimal(id.seqNo);
    SignedDecimal(id.ms);
    SignedDecimal(id.seqNo);
    DashAfter(a, b);
    hide ParseU64, Decimal, DashAt;
    var s := a + "-" + b;
    assert s[..|a|] == a && s[|a| + 1..] == b;
  }

  /** Text ids compare as the numbers they spell. */
  lemma OlderIsLess(a: Id, b: Id)
    requires Fits(a) && Fits(b)
    ensures IsOlder(Format(a), Format(b)) <==> Less(a, b)
  {
    FormatReadsBack(a);
    FormatReadsBack(b);
  }

  /** Whatever is read as an id fits two 64-bit numbers, around the first dash. */
  lemma ParsedFits(s: string)
    ensures ParseId(s).Some? ==> ParseId(s).value.ms < 0x1_0000_0000_0000_0000
                                 && ParseId(s).value.seqNo < 0x1_0000_0000_0000_0000 && '-' in s
  {
    var n := DashAt(s);
    if n < |s| { assert s[n] in s; }
  }
}
