/** What one huddle keeps, command by command. */
module HuddleLaws {
  import opened Options
  import opened HuddleRoom

  /** The most members a huddle may hold on the transport it is on. */
  function Cap(cfg: Option<Sfu>, onSfu: bool): int {
    match cfg
    case None => 8
    case Some(s) => if onSfu then Max(s.maxParticipants, s.threshold + 1) else s.threshold
  }

  predicate AdmitsSomeone(cfg: Option<Sfu>) { cfg.Some? ==> cfg.value.maxParticipants >= 1 }

  /** The transport key never goes before the member set does. */
  predicate TransportOutlives(r: Room) {
    r.transport.Some? && r.members != {} ==> r.transport.value >= r.membersUntil
  }

  predicate Capped(r: Room, cfg: Option<Sfu>) {
    && (cfg.None? ==> r.transport.None?)
    && (r.members != {} ==> |r.members| <= Cap(cfg, r.transport.Some?))
  }

  predicate NotLapsed(r: Room, now: int) { r.members != {} ==> now < r.membersUntil }

  /** The roster a reader of the published events ends up with. */
  function Roster(log: seq<Event>): set<UserId> {
    if log == [] then {} else
      var before := Roster(log[..|log| - 1]);
      match log[|log| - 1]
      case Joined(u) => before + {u}
      case Left(u) => before - {u}
  }

  /** Every departure is of someone the reader has on the roster. */
  predicate Plausible(log: seq<Event>) {
    log != [] ==>
      var before := log[..|log| - 1];
      Plausible(before) && (log[|log| - 1].Left? ==> log[|log| - 1].user in Roster(before))
  }

  predicate Faithful(r: Room) { Roster(r.log) == r.members && Plausible(r.log) }

  lemma AppendEvent(log: seq<Event>, e: Event)
    requires Plausible(log)
    requires e.Left? ==> e.user in Roster(log)
    ensures Plausible(log + [e])
    ensures Roster(log + [e]) == if e.Joined? then Roster(log) + {e.user} else Roster(log) - {e.user}
  {
    assert (log + [e])[..|log + [e]| - 1] == log;
  }

  /** A transport that outlives the members is there whenever they are. */
  lemma LiveMembersKeepTransport(r: Room, now: int)
    requires TransportOutlives(r) && r.transport.Some? && Live(r, now) != {}
    ensures IsOnSfu(r, now)
  {
  }

  lemma TransportOutlivesKept(r: Room, u: UserId, cfg: Option<Sfu>, now: int)
    requires TransportOutlives(r)
    ensures TransportOutlives(Join(r, u, cfg, now).0)
    ensures TransportOutlives(Leave(r, u, now))
    ensures TransportOutlives(Refresh(r, u, now))
  {
  }

  /** What a join does and answers. Whoever is not there yet is refused where as many are
      as the transport in force admits; anybody else is there from now on, for two minutes
      more, and with them all, on the SFU if it was in force or there are now too many for
      the mesh. */
  lemma JoinAnswer(r: Room, u: UserId, cfg: Option<Sfu>, now: int)
    requires AdmitsSomeone(cfg)
    ensures var (after, answer) := Join(r, u, cfg, now);
      var here := if now < r.membersUntil then r.members else {};
      var keyed := r.transport.Some? && now < r.transport.value;
      var most := if keyed && cfg.Some? then cfg.value.maxParticipants else 8;
      var promoted := !keyed && cfg.Some? && |here + {u}| > cfg.value.threshold;
      if u !in here && |here| >= most then
        && answer == Full(most) && after.log == r.log && after.promotions == r.promotions
        && after.members == here && after.membersUntil == r.membersUntil
        && after.transport == if keyed then r.transport else None
      else
        && answer == Accepted(if keyed || promoted then OnSfu else Mesh, promoted)
        && after.log == r.log + [Joined(u)]
        && after.promotions == (if promoted then r.promotions + [now] else r.promotions)
        && after.members == here + {u} && after.membersUntil == now + 120
        && after.transport == if keyed || promoted then Some(now + 120) else None
  {
  }

  /** With an SFU limit of zero the refusal code `-0` reads as an acceptance: the
      answer tells of a refusal exactly when the limit in force is positive. */
  lemma RefusalIsReportedIff(r: Room, u: UserId, cfg: Option<Sfu>, now: int)
    requires Refused(r, u, cfg, now)
    ensures Join(r, u, cfg, now).1.Full? <==> (IsOnSfu(r, now) ==> SfuLimit(cfg) > 0)
    ensures Live(Join(r, u, cfg, now).0, now) == Live(r, now)
  {
  }

  lemma JoinKeepsCap(r: Room, u: UserId, cfg: Option<Sfu>, now: int)
    requires StartsUp(cfg) && TransportOutlives(r) && Capped(r, cfg) && NotLapsed(r, now)
    ensures Capped(Join(r, u, cfg, now).0, cfg)
  {
    var a := AsOf(r, now);
    assert a.members == r.members;
    assert |a.members + {u}| == if u in a.members then |a.members| else |a.members| + 1 by {
      if u in a.members { assert a.members + {u} == a.members; }
    }
  }

  /** A join either changes nobody and publishes nothing, or adds its user and
      publishes the arrival. */
  lemma JoinAccounts(r: Room, u: UserId, cfg: Option<Sfu>, now: int)
    requires AdmitsSomeone(cfg) && NotLapsed(r, now)
    ensures var after := Join(r, u, cfg, now).0;
      || (after.log == r.log && after.members == r.members)
      || (after.log == r.log + [Joined(u)] && after.members == r.members + {u})
  {
    assert AsOf(r, now).members == r.members && AsOf(r, now).log == r.log;
  }

  lemma JoinKeepsFaith(r: Room, u: UserId, cfg: Option<Sfu>, now: int)
    requires AdmitsSomeone(cfg) && Faithful(r) && NotLapsed(r, now)
    ensures Faithful(Join(r, u, cfg, now).0)
  {
    AppendEvent(r.log, Joined(u));
    JoinAccounts(r, u, cfg, now);
  }

  lemma LeaveKeeps(r: Room, u: UserId, cfg: Option<Sfu>, now: int)
    requires TransportOutlives(r) && Capped(r, cfg) && Faithful(r) && NotLapsed(r, now)
    ensures Capped(Leave(r, u, now), cfg) && Faithful(Leave(r, u, now))
    ensures Leave(r, u, now).members == r.members - {u}
    ensures Leave(r, u, now).log == r.log + if u in r.members then [Left(u)] else []
  {
    assert AsOf(r, now).members == r.members;
    if u in r.members {
      AppendEvent(r.log, Left(u));
      assert |r.members - {u}| == |r.members| - 1;
    } else {
      assert r.members - {u} == r.members && r.log + [] == r.log;
    }
  }

  /** The unchecked add is harmless for someone who is already a member. */
  lemma RefreshKeeps(r: Room, u: UserId, cfg: Option<Sfu>, now: int)
    requires TransportOutlives(r) && Capped(r, cfg) && Faithful(r) && NotLapsed(r, now)
    requires u in r.members
    ensures Capped(Refresh(r, u, now), cfg) && Faithful(Refresh(r, u, now))
    ensures Refresh(r, u, now).members == r.members
  {
    assert r.members + {u} == r.members;
  }

  /** Issued at one instant the three commands are the refresh of the model; spread out,
      they keep a promoted huddle on the SFU exactly when its transport key lives to see
      the last of them, and their user in it exactly when the member set, if somebody was
      in it, lives to see the second, and the third comes within two minutes of that. */
  lemma SpreadRefresh(r: Room, u: UserId, t1: int, t2: int, t3: int)
    requires TransportOutlives(r) && t1 <= t2 <= t3
    ensures RefreshSpread(r, u, t1, t1, t1) == Refresh(r, u, t1)
    ensures IsOnSfu(r, t1) ==>
              (IsOnSfu(RefreshSpread(r, u, t1, t2, t3), t3) <==> r.transport.value > t3)
    ensures var here := if t1 < r.membersUntil then r.members else {};
      Live(RefreshSpread(r, u, t1, t2, t3), t3)
      == if (here == {} || t2 < r.membersUntil) && t3 < t2 + 120 then here + {u} else {}
  {
  }

  /** Two departures of one user always have that user's arrival between them. */
  lemma {:induction false} DeparturesAlternate(log: seq<Event>, u: UserId, i: nat, j: nat)
    requires Plausible(log)
    requires i < j < |log| && log[i] == Left(u) && log[j] == Left(u)
    ensures exists k :: i < k < j && log[k] == Joined(u)
  {
    PlausiblePrefix(log, j + 1);
    assert log[..j + 1][..j] == log[..j];
    var k := ArrivalAfter(log[..j], u, i);
    assert log[..j][k] == log[k];
  }

  ghost predicate Alternating(log: seq<Event>) {
    forall u, i, j :: 0 <= i < j < |log| && log[i] == Left(u) && log[j] == Left(u) ==>
      exists k :: i < k < j && log[k] == Joined(u)
  }

  lemma PlausibleAlternates(log: seq<Event>)
    requires Plausible(log)
    ensures Alternating(log)
  {
    forall u, i: nat, j: nat | i < j < |log| && log[i] == Left(u) && log[j] == Left(u)
      ensures exists k :: i < k < j && log[k] == Joined(u)
    {
      DeparturesAlternate(log, u, i, j);
    }
  }

  lemma {:induction false} PlausiblePrefix(log: seq<Event>, n: nat)
    requires Plausible(log) && n <= |log|
    ensures Plausible(log[..n])
  {
    if n < |log| {
      PlausiblePrefix(log[..|log| - 1], n);
      assert log[..|log| - 1][..n] == log[..n];
    } else {
      assert log[..n] == log;
    }
  }

  lemma {:induction false} ArrivalAfter(log: seq<Event>, u: UserId, i: nat) returns (k: nat)
    requires u in Roster(log) && i < |log| && log[i] == Left(u)
    ensures i < k < |log| && log[k] == Joined(u)
  {
    var last := |log| - 1;
    if log[last] == Joined(u) && i != last {
      k := last;
    } else {
      k := ArrivalAfter(log[..last], u, i);
    }
  }
}
