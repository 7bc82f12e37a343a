/**
 Revoked sessions: one overwriting record per user, with a time to live, read
 back on every request. Wall-clock times are milliseconds, token times seconds.
 */
module Revocation {
  import opened Options

  type Jti = nat

  datatype Claims = Claims(iat: int, exp: int, jti: Option<Jti>)

  datatype Record = Record(at: int, exceptJti: Option<Jti>)

  /** A record, or what an older build wrote and nobody can read. */
  datatype Payload = Written(record: Record) | Unreadable

  datatype Key = Key(payload: Option<Payload>, until: int)

  datatype State = Valid | Revoked | Unknown

  datatype Lookup = Found(payload: Payload) | Missing | Error

  datatype Scope = All | AllExcept(jti: Jti)

  const RETRIES := 1

  predicate Covers(r: Record, c: Claims) {
    if c.iat > r.at then false
    else !(r.exceptJti.Some? && c.jti.Some? && r.exceptJti.value == c.jti.value)
  }

  function Decide(c: Claims, p: Payload): State {
    match p
    case Written(r) => if Covers(r, c) then Revoked else Valid
    case Unreadable => Revoked
  }

  function Answer(c: Claims, l: Lookup): State {
    match l
    case Found(p) => Decide(c, p)
    case Missing => Valid
    case Error => Unknown
  }

  predicate FirstAnswer(lookups: seq<Lookup>, i: nat)
    requires i < |lookups|
  {
    !lookups[i].Error? && forall j :: 0 <= j < i ==> lookups[j].Error?
  }

  /** One retry; a store that never answers is not a valid session. */
  method RevocationState(c: Claims, lookups: seq<Lookup>) returns (state: State)
    requires |lookups| == RETRIES + 1
    ensures state == Unknown <==> forall l <- lookups :: l.Error?
    ensures state != Unknown ==>
      exists i :: 0 <= i < |lookups| && FirstAnswer(lookups, i) && state == Answer(c, lookups[i])
    ensures (exists i :: 0 <= i < |lookups| && FirstAnswer(lookups, i) && lookups[i] == Missing) ==> state == Valid
    ensures (exists i :: 0 <= i < |lookups| && FirstAnswer(lookups, i) && lookups[i] == Found(Unreadable)) ==>
      state == Revoked
    ensures forall i, r :: 0 <= i < |lookups| && FirstAnswer(lookups, i) && lookups[i] == Found(Written(r)) ==>
      state == if c.iat <= r.at && (r.exceptJti.None? || c.jti != r.exceptJti) then Revoked else Valid
  {
    var attempt := 0;
    while attempt <= RETRIES
      invariant 0 <= attempt <= RETRIES + 1
      invariant forall j :: 0 <= j < attempt ==> lookups[j].Error?
    {
      match lookups[attempt] {
        case Found(p) =>
          assert lookups[attempt] in lookups && FirstAnswer(lookups, attempt);
          return Decide(c, p);
        case Missing =>
          assert lookups[attempt] in lookups && FirstAnswer(lookups, attempt);
          return Valid;
        case Error =>
      }
      attempt := attempt + 1;
    }
    return Unknown;
  }

  function Survivor(s: Scope): Option<Jti> {
    match s case All => None case AllExcept(j) => Some(j)
  }

  function Ttl(access: int, refresh: int): nat { Max(Max(access, refresh), 0) }

  /** SETEX refuses a time to live of zero, and the refusal is only logged. */
  function Revoke(k: Key, r: Record, ttl: nat, now: int): Key {
    if ttl == 0 then k else Key(Some(Written(r)), now + ttl * 1000)
  }

  function NewRecord(s: Scope, now: int): Record { Record(now / 1000, Survivor(s)) }

  class Sessions {
    var refreshTokens: set<Jti>
    var key: Key
    var published: seq<Option<Jti>>

    method RevokeSessions(scope: Scope, access: int, refresh: int, now: int)
      modifies this
      ensures refreshTokens == if scope.All? then {} else old(refreshTokens) * {scope.jti}
      ensures key == Revoke(old(key), NewRecord(scope, now), Ttl(access, refresh), now)
      ensures published == old(published) + [if scope.All? then None else Some(scope.jti)]
      ensures access <= 0 && refresh <= 0 ==> key == old(key)
      ensures access > 0 || refresh > 0 ==>
        && key.payload == Some(Written(Record(now / 1000, if scope.All? then None else Some(scope.jti))))
        && key.until == now + 1000 * (if access > refresh then access else refresh)
    {
      var survivor := Survivor(scope);
      match survivor {
        case None => refreshTokens := {};
        case Some(jti) => refreshTokens := set t | t in refreshTokens && t == jti;
      }
      var ttl := Ttl(access, refresh);
      if ttl > 0 {
        key := Key(Some(Written(Record(now / 1000, survivor))), now + ttl * 1000);
      }
      published := published + [survivor];
    }

    /** Whatever was revoked before, no session is rejected any more. */
    method Restore()
      modifies this`key
      ensures forall c, now :: !Rejected(key, c, now)
    {
      key := Key(None, 0);
    }
  }

  function LookupAt(k: Key, now: int): Lookup {
    if k.payload.Some? && now < k.until then Found(k.payload.value) else Missing
  }

  predicate Rejected(k: Key, c: Claims, now: int) { Answer(c, LookupAt(k, now)) == Revoked }

  /** Whether the token itself is still accepted, some seconds past its expiry;
      a leeway of -1 ends it the moment `exp` is reached. */
  predicate Unexpired(c: Claims, now: int, leeway: int) { now / 1000 <= c.exp + leeway }

  datatype Revoking = Revoking(scope: Scope, caller: Claims, access: int, refresh: int, now: int)

  function Next(k: Key, s: Revoking): Key {
    Revoke(k, NewRecord(s.scope, s.now), Ttl(s.access, s.refresh), s.now)
  }

  function Run(k: Key, steps: seq<Revoking>): Key {
    if steps == [] then k else Next(Run(k, steps[..|steps| - 1]), steps[|steps| - 1])
  }

  /** A revocation spares only the session it was asked from, which passed the
      check itself at that moment. */
  predicate Proper(k: Key, s: Revoking, accepted: int) {
    s.scope.AllExcept? ==>
      && s.caller.jti == Some(s.scope.jti)
      && Unexpired(s.caller, s.now, accepted) && !Rejected(k, s.caller, s.now)
  }

  predicate ProperRun(k: Key, steps: seq<Revoking>, accepted: int) {
    steps != [] ==>
      var before := steps[..|steps| - 1];
      var last := steps[|steps| - 1];
      && ProperRun(k, before, accepted) && Proper(Run(k, before), last, accepted)
      && (before != [] ==> before[|before| - 1].now <= last.now)
  }

  predicate OutlivesToken(c: Claims, s: Revoking, leeway: int) {
    Ttl(s.access, s.refresh) > c.exp - c.iat + leeway
  }

  /** A moment when a session revoked at `now` has not expired by itself. */
  predicate Owed(c: Claims, now: int, t: int, leeway: int) {
    c.iat <= now / 1000 && now <= t && Unexpired(c, t, leeway)
  }

  /** One revocation rejects the session for as long as it is owed, whenever it is
      made, if and only if its time to live exceeds the token's life and leeway
      together. */
  lemma TtlSufficesIff(c: Claims, ttl: nat, leeway: int)
    requires c.exp + leeway >= c.iat
    ensures (forall now, t :: Owed(c, now, t, leeway) ==>
               Rejected(Revoke(Key(None, 0), NewRecord(All, now), ttl, now), c, t))
       <==> ttl > c.exp - c.iat + leeway
  {
    if ttl <= c.exp - c.iat + leeway {
      var now := c.iat * 1000;
      var t := now + ttl * 1000;
      assert now / 1000 == c.iat && t / 1000 == c.iat + ttl;
      assert Owed(c, now, t, leeway);
      assert !Rejected(Revoke(Key(None, 0), NewRecord(All, now), ttl, now), c, t);
    }
  }

  predicate Holds(k: Key, c: Claims, leeway: int) {
    && k.payload.Some? && k.payload.value.Written? && Covers(k.payload.value.record, c)
    && k.until >= (c.exp + leeway + 1) * 1000
  }

  /** No two sessions share an id. */
  predicate OwnJti(c: Claims, steps: seq<Revoking>) {
    forall s <- steps :: c.jti.Some? && s.caller.jti == c.jti ==> s.caller == c
  }

  lemma RevokeHolds(k: Key, s: Revoking, c: Claims, leeway: int)
    requires c.iat <= s.now / 1000 && OutlivesToken(c, s, leeway) && c.exp + leeway >= c.iat
    requires c.jti.Some? ==> Survivor(s.scope) != c.jti
    ensures Holds(Next(k, s), c, leeway)
  {
    assert s.now >= s.now / 1000 * 1000;
  }

  lemma HoldsRejects(k: Key, c: Claims, now: int, leeway: int)
    requires Holds(k, c, leeway) && Unexpired(c, now, leeway)
    ensures Rejected(k, c, now)
  {
  }

  lemma {:induction false} HoldsOverRuns(k: Key, steps: seq<Revoking>, c: Claims, leeway: int, accepted: int)
    requires Holds(k, c, leeway) && OwnJti(c, steps) && ProperRun(k, steps, accepted)
    requires forall s <- steps :: OutlivesToken(c, s, leeway) && c.iat <= s.now / 1000
    requires c.exp + leeway >= c.iat
    ensures (steps != [] ==> Unexpired(c, steps[|steps| - 1].now, leeway)) ==> Holds(Run(k, steps), c, leeway)
  {
    if steps != [] && Unexpired(c, steps[|steps| - 1].now, leeway) {
      var before := steps[..|steps| - 1];
      var last := steps[|steps| - 1];
      assert forall s <- before :: s in steps;
      assert before != [] ==> before[|before| - 1] in steps;
      HoldsOverRuns(k, before, c, leeway, accepted);
      HoldsRejects(Run(k, before), c, last.now, leeway);
      assert last in steps;
      RevokeHolds(Run(k, before), last, c, leeway);
    }
  }

  /** A session a revocation covered stays rejected until it expires, whatever later
      revocations overwrite the record and whenever records lapse. */
  lemma RevokedStaysRejected(
    k: Key, first: Revoking, later: seq<Revoking>, c: Claims, now: int, leeway: int, accepted: int)
    requires c.iat <= first.now / 1000 && (first.scope.AllExcept? ==> c.jti != Some(first.scope.jti))
    requires OwnJti(c, later) && ProperRun(Next(k, first), later, accepted)
    requires forall s <- later :: first.now <= s.now <= now
    requires first.now <= now && Unexpired(c, now, leeway)
    requires forall s <- [first] + later :: OutlivesToken(c, s, leeway)
    ensures Rejected(Run(Next(k, first), later), c, now)
  {
    assert first in [first] + later;
    forall s <- later ensures OutlivesToken(c, s, leeway) { assert s in [first] + later; }
    RevokeHolds(k, first, c, leeway);
    if later != [] { assert later[|later| - 1] in later; }
    HoldsOverRuns(Next(k, first), later, c, leeway, accepted);
    HoldsRejects(Run(Next(k, first), later), c, now, leeway);
  }

  /** Signing in again right after: a token minted in a later second is let in. */
  lemma LaterTokenIsValid(k: Key, s: Revoking, c: Claims, now: int)
    requires Ttl(s.access, s.refresh) > 0
    ensures s.now <= now < s.now + Ttl(s.access, s.refresh) * 1000 ==>
              (Rejected(Next(k, s), c, now) <==>
                 c.iat <= s.now / 1000 && (s.scope.AllExcept? ==> c.jti != Some(s.scope.jti)))
  {
  }

  // ---- The session that is spared ----

  predicate Spares(s: Revoking, c: Claims) { s.scope.AllExcept? && c.jti == Some(s.scope.jti) }

  /** A session accepted at some moment is accepted as long as the record stays. */
  lemma AcceptedStays(k: Key, c: Claims, now: int, t: int)
    requires now <= t && !Rejected(k, c, now)
    ensures !Rejected(k, c, t)
  {
  }

  /** The session that signs the others out is not rejected afterwards, nor is any other
      that carries the spared id. */
  lemma SparedIsAccepted(k: Key, s: Revoking, c: Claims, t: int)
    requires s.scope.AllExcept? && c.jti == Some(s.scope.jti) && s.now <= t
    requires s.access > 0 || s.refresh > 0 || !Rejected(k, c, s.now)
    ensures !Rejected(Next(k, s), c, t)
  {
    if s.access <= 0 && s.refresh <= 0 { AcceptedStays(k, c, s.now, t); }
  }

  /** With no session spared every one issued so far is rejected while the record lives. */
  lemma AllAreRejected(k: Key, s: Revoking, c: Claims, t: int)
    requires s.scope.All? && c.iat <= s.now / 1000
    requires s.now <= t < s.now + 1000 * s.access || s.now <= t < s.now + 1000 * s.refresh
    ensures Rejected(Next(k, s), c, t)
  {
  }

  /** Over any run of revocations that all spare it, an accepted session stays accepted. */
  lemma {:induction false} SparedOverRuns(k: Key, steps: seq<Revoking>, c: Claims, start: int, t: int)
    requires !Rejected(k, c, start)
    requires forall i :: 0 <= i < |steps| ==> Spares(steps[i], c) && start <= steps[i].now <= t
    requires forall i, j :: 0 <= i < j < |steps| ==> steps[i].now <= steps[j].now
    requires start <= t
    ensures !Rejected(Run(k, steps), c, t)
  {
    hide Rejected, Next;
    if steps == [] {
      AcceptedStays(k, c, start, t);
    } else {
      var before, last := steps[..|steps| - 1], steps[|steps| - 1];
      SparedOverRuns(k, before, c, start, last.now);
      SparedIsAccepted(Run(k, before), last, c, t);
    }
  }
}
