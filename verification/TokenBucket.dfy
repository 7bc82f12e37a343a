/**
 The inbound flood guard: a bucket of 40 frames refilled at 20 a second, over
 exact time in seconds.
 */
module TokenBucket {
  const PER_SEC := 20.0
  const BURST := 40.0

  datatype Bucket = Bucket(tokens: real, lastRefill: real)

  function Refilled(b: Bucket, now: real): real {
    var topped := b.tokens + (now - b.lastRefill) * PER_SEC;
    if topped < BURST then topped else BURST
  }

  predicate Allows(b: Bucket, now: real) { Refilled(b, now) >= 1.0 }

  function Charged(b: Bucket, now: real): Bucket {
    Bucket(if Allows(b, now) then Refilled(b, now) - 1.0 else Refilled(b, now), now)
  }

  class InboundState {
    var tokens: real
    var lastRefill: real

    ghost function State(): Bucket
      reads this
    {
      Bucket(tokens, lastRefill)
    }

    constructor (now: real)
      ensures State() == Bucket(40.0, now)
    {
      tokens, lastRefill := BURST, now;
    }

    method Allow(now: real) returns (allowed: bool)
      modifies this
      ensures State() == Charged(old(State()), now)
      ensures allowed <==> Allows(old(State()), now)
    {
      tokens := tokens + (now - lastRefill) * PER_SEC;
      if tokens > BURST {
        tokens := BURST;
      }
      lastRefill := now;
      if tokens < 1.0 {
        return false;
      }
      tokens := tokens - 1.0;
      return true;
    }

    /** A whole connection: one decision per frame. */
    method AllowAll(arrivals: seq<real>) returns (decisions: seq<bool>)
      modifies this
      ensures State() == After(old(State()), arrivals)
      ensures decisions == Decisions(old(State()), arrivals)
    {
      decisions := [];
      var i := 0;
      while i < |arrivals|
        invariant i <= |arrivals|
        invariant State() == After(old(State()), arrivals[..i])
        invariant decisions == Decisions(old(State()), arrivals[..i])
      {
        assert arrivals[..i + 1][..i] == arrivals[..i];
        var allowed := Allow(arrivals[i]);
        decisions := decisions + [allowed];
        i := i + 1;
      }
      assert arrivals[..i] == arrivals;
    }
  }

  function After(b: Bucket, arrivals: seq<real>): Bucket {
    if arrivals == [] then b
    else Charged(After(b, arrivals[..|arrivals| - 1]), arrivals[|arrivals| - 1])
  }

  function Decisions(b: Bucket, arrivals: seq<real>): (d: seq<bool>)
    ensures |d| == |arrivals|
  {
    if arrivals == [] then [] else
      var init := arrivals[..|arrivals| - 1];
      Decisions(b, init) + [Allows(After(b, init), arrivals[|arrivals| - 1])]
  }

  /** Frames in order of arrival, the first not before the connection. */
  predicate Ordered(start: real, arrivals: seq<real>) {
    && (forall t <- arrivals :: start <= t)
    && forall i, j :: 0 <= i < j < |arrivals| ==> arrivals[i] <= arrivals[j]
  }

  /** How many of the frames from `i` up to `k` were accepted. */
  function Accepted(d: seq<bool>, i: nat, k: nat): nat
    requires i <= k <= |d|
  {
    if i == k then 0 else Accepted(d, i, k - 1) + if d[k - 1] then 1 else 0
  }

  lemma {:induction false} AcceptedPrefix(d: seq<bool>, n: nat, i: nat, k: nat)
    requires i <= k <= n <= |d|
    ensures Accepted(d[..n], i, k) == Accepted(d, i, k)
  {
    if i < k { AcceptedPrefix(d, n, i, k - 1); }
  }

  lemma {:induction false} DecisionsPrefix(b: Bucket, arrivals: seq<real>, n: nat)
    requires n <= |arrivals|
    ensures Decisions(b, arrivals)[..n] == Decisions(b, arrivals[..n])
  {
    if n < |arrivals| {
      var init := arrivals[..|arrivals| - 1];
      DecisionsPrefix(b, init, n);
      assert init[..n] == arrivals[..n];
    } else {
      assert arrivals[..n] == arrivals;
    }
  }

  /** What a window opening with frame `i` has left when frame `k` arrives. */
  function Room(arrivals: seq<real>, d: seq<bool>, i: nat, k: nat): real
    requires i <= k < |arrivals| && |d| == |arrivals|
  {
    BURST + (arrivals[k] - arrivals[i]) * PER_SEC - Accepted(d, i, k) as real
  }

  function Level(b: Bucket, arrivals: seq<real>, k: nat): real
    requires k < |arrivals|
  {
    Refilled(After(b, arrivals[..k]), arrivals[k])
  }

  lemma LevelStep(b: Bucket, arrivals: seq<real>, k: nat)
    requires k + 1 < |arrivals|
    ensures var spent := if Decisions(b, arrivals)[k] then 1.0 else 0.0;
      var next := Level(b, arrivals, k) - spent + (arrivals[k + 1] - arrivals[k]) * PER_SEC;
      Level(b, arrivals, k + 1) == if next < BURST then next else BURST
    ensures Decisions(b, arrivals)[k] <==> Level(b, arrivals, k) >= 1.0
  {
    DecisionsPrefix(b, arrivals, k + 1);
    assert arrivals[..k + 1][..k] == arrivals[..k];
    assert Decisions(b, arrivals)[..k + 1][k] == Decisions(b, arrivals)[k];
  }

  /** The bucket holds the least room over all windows ending now. */
  lemma {:induction false} LevelIsLeastRoom(start: real, arrivals: seq<real>, k: nat) returns (tight: nat)
    requires Ordered(start, arrivals) && k < |arrivals|
    ensures var b := Bucket(BURST, start);
      var d := Decisions(b, arrivals);
      && (forall i: nat :: i <= k ==> Level(b, arrivals, k) <= Room(arrivals, d, i, k))
      && tight <= k && Level(b, arrivals, k) == Room(arrivals, d, tight, k)
  {
    var b := Bucket(BURST, start);
    var d := Decisions(b, arrivals);
    if k == 0 {
      assert arrivals[..0] == [] && arrivals[0] in arrivals;
      tight := 0;
    } else {
      var t := LevelIsLeastRoom(start, arrivals, k - 1);
      LevelStep(b, arrivals, k - 1);
      var change := (arrivals[k] - arrivals[k - 1]) * PER_SEC - if d[k - 1] then 1.0 else 0.0;
      forall i: nat | i < k
        ensures Room(arrivals, d, i, k) == Room(arrivals, d, i, k - 1) + change
      {
      }
      assert Room(arrivals, d, k, k) == BURST;
      tight := if Level(b, arrivals, k) == BURST then k else t;
    }
  }

  /** One more frame at `k` would be too many for the window that opens at `i`. */
  predicate Overfills(arrivals: seq<real>, d: seq<bool>, i: nat, k: nat)
    requires i <= k < |arrivals| && |d| == |arrivals|
  {
    Accepted(d, i, k) as real + 1.0 > 40.0 + 20.0 * (arrivals[k] - arrivals[i])
  }

  /** A frame is refused exactly when accepting it would overfill some window that
      ends with it. */
  lemma RefusedIff(start: real, arrivals: seq<real>, k: nat)
    requires Ordered(start, arrivals) && k < |arrivals|
    ensures var d := Decisions(Bucket(40.0, start), arrivals);
      !d[k] <==> exists i: nat :: i <= k && Overfills(arrivals, d, i, k)
  {
    var b := Bucket(BURST, start);
    var d := Decisions(b, arrivals);
    var tight := LevelIsLeastRoom(start, arrivals, k);
    DecisionsPrefix(b, arrivals, k + 1);
    assert arrivals[..k + 1][..k] == arrivals[..k];
    assert d[..k + 1][k] == d[k];
    assert d[k] <==> Level(b, arrivals, k) >= 1.0;
    forall i: nat | i <= k
      ensures Room(arrivals, d, i, k) < 1.0 <==> Overfills(arrivals, d, i, k)
    {
    }
  }

  lemma {:induction false} SpanBound(start: real, arrivals: seq<real>, i: nat, k: nat)
    requires Ordered(start, arrivals) && i <= k < |arrivals|
    ensures var d := Decisions(Bucket(BURST, start), arrivals);
      Accepted(d, i, k + 1) as real <= BURST + (arrivals[k] - arrivals[i]) * PER_SEC
  {
    var d := Decisions(Bucket(BURST, start), arrivals);
    if d[k] {
      RefusedIff(start, arrivals, k);
      assert !Overfills(arrivals, d, i, k);
    } else if i < k {
      SpanBound(start, arrivals, i, k - 1);
    }
  }

  /** How many accepted frames arrived in a window of time. */
  function AcceptedWithin(arrivals: seq<real>, d: seq<bool>, from: real, until: real): nat
    requires |d| == |arrivals|
  {
    if arrivals == [] then 0 else
      var n := |arrivals| - 1;
      AcceptedWithin(arrivals[..n], d[..n], from, until)
      + if d[n] && from <= arrivals[n] <= until then 1 else 0
  }

  lemma {:induction false} WithinIsSpan(
    start: real, arrivals: seq<real>, d: seq<bool>, from: real, until: real, n: nat)
    returns (i: nat, k: nat)
    requires Ordered(start, arrivals) && |d| == |arrivals| && n <= |arrivals|
    ensures i <= k <= n && AcceptedWithin(arrivals[..n], d[..n], from, until) == Accepted(d, i, k)
    ensures forall j: nat :: j < i ==> arrivals[j] < from
    ensures forall j: nat :: i <= j < k ==> from <= arrivals[j] <= until
    ensures forall j: nat :: k <= j < n ==> arrivals[j] > until || arrivals[j] < from
    ensures i < k || i == n || arrivals[i] > until
  {
    if n == 0 {
      i, k := 0, 0;
    } else {
      i, k := WithinIsSpan(start, arrivals, d, from, until, n - 1);
      assert arrivals[..n][..n - 1] == arrivals[..n - 1] && d[..n][..n - 1] == d[..n - 1];
      if arrivals[n - 1] < from {
        i, k := n, n;
      } else if arrivals[n - 1] <= until {
        k := n;
      }
    }
  }

  /** In any window of `w` seconds at most 40 + 20 w frames are accepted. */
  lemma RateConformance(start: real, arrivals: seq<real>, from: real, until: real)
    requires Ordered(start, arrivals) && from <= until
    ensures AcceptedWithin(arrivals, Decisions(Bucket(40.0, start), arrivals), from, until) as real
         <= 40.0 + 20.0 * (until - from)
  {
    var d := Decisions(Bucket(BURST, start), arrivals);
    var i, k := WithinIsSpan(start, arrivals, d, from, until, |arrivals|);
    assert arrivals[..|arrivals|] == arrivals && d[..|d|] == d;
    if i < k { SpanBound(start, arrivals, i, k - 1); }
  }
}
