/** What each frame does to connections and rooms, and who is left where. */
module HuddleFrames {
  import opened Options
  import opened HuddleRoom
  import opened HuddleLaws
  import opened HuddleNode
  import opened HuddleRuns
  import opened HuddleBounds

  /** In the set, which has not reached its deadline. */
  predicate Present(r: Room, u: UserId, now: int) { u in r.members && now < r.membersUntil }

  ghost predicate StillSubscribed(conns: map<ConnId, Conn>, u: UserId, h: HuddleId) {
    exists d :: d in conns && conns[d].user == u && h in conns[d].huddles
  }

  /** `u` is out of the room, the others are as they were, and the departure has been
      published if there was one. */
  predicate Departed(before: Room, after: Room, u: UserId, now: int) {
    && !Present(after, u, now)
    && (forall v <- before.members + after.members :: v != u ==> (Present(after, v, now) <==> Present(before, v, now)))
    && after.log == (if Present(before, u, now) then before.log + [Left(u)] else before.log)
  }

  /** The connection a step takes out of a huddle, and which huddles. */
  predicate TakesOut(n: Node, s: Step, h: HuddleId) {
    match s
    case LeaveFrame(_, _, left) => left == h
    case Cleanup(c, _) => c in n.conns && h in n.conns[c].huddles
    case _ => false
  }

  /** A leave, or the end of a connection, takes its user out of each huddle concerned
      if and only if no other connection holds it for them. */
  lemma LeavingFrees(n: Node, s: Step, cfg: Option<Sfu>, now: int, h: HuddleId)
    requires TakesOut(n, s, h)
    ensures var m := Next(n, s, cfg, now);
      var before, after := RoomOf(n.rooms, h), RoomOf(m.rooms, h);
      if StillSubscribed(m.conns, s.u, h) then after == before else Departed(before, after, s.u, now)
  {
    var m := Next(n, s, cfg, now);
    var before := RoomOf(n.rooms, h);
    assert RoomOf(m.rooms, h) == LeaveUnlessHeld(m.conns, s.u, h, before, now);
    if d :| d in m.conns && m.conns[d].user == s.u && h in m.conns[d].huddles {
      assert UserInHuddle(m.conns, s.u, h);
    }
  }

  /** A leave touches one subscription of one connection; an end of a connection takes
      it away; other rooms are as they were. */
  lemma LeavingTouches(n: Node, s: Step, cfg: Option<Sfu>, now: int)
    requires s.LeaveFrame? || s.Cleanup?
    ensures var m := Next(n, s, cfg, now);
      && (forall d :: d != s.c ==> (d in m.conns <==> d in n.conns) && (d in n.conns ==> m.conns[d] == n.conns[d]))
      && (s.Cleanup? ==> s.c !in m.conns)
      && (s.LeaveFrame? && s.c in n.conns ==>
            s.c in m.conns && m.conns[s.c] == Conn(n.conns[s.c].user, n.conns[s.c].huddles - {s.h}))
      && (forall h: HuddleId :: !TakesOut(n, s, h) ==> RoomOf(m.rooms, h) == RoomOf(n.rooms, h))
  {
  }

  /** A join that is not allowed, or refused, subscribes nobody; an accepted one adds the
      huddle to the one connection. */
  lemma JoiningTouches(n: Node, s: Step, cfg: Option<Sfu>, now: int)
    requires s.JoinFrame?
    ensures var m := Next(n, s, cfg, now);
      var refused := Join(RoomOf(n.rooms, s.h), s.u, cfg, now).1.Full?;
      && (!s.allowed ==> m == n)
      && (s.allowed && refused ==> m.conns == n.conns)
      && (forall d :: d != s.c ==> (d in m.conns <==> d in n.conns) && (d in n.conns ==> m.conns[d] == n.conns[d]))
      && (s.allowed && !refused && s.c in n.conns ==>
            s.c in m.conns && m.conns[s.c] == Conn(n.conns[s.c].user, n.conns[s.c].huddles + {s.h}))
      && (forall h: HuddleId :: h != s.h ==> RoomOf(m.rooms, h) == RoomOf(n.rooms, h))
  {
    hide JoinScript, Decode;
  }

  /** A heartbeat puts its user into each huddle of its connection and keeps both keys
      for two minutes from then; nothing else changes. */
  lemma HeartbeatHolds(n: Node, s: Step, cfg: Option<Sfu>, now: int, h: HuddleId)
    requires s.Heartbeat?
    ensures var m := Next(n, s, cfg, now);
      var before, after := RoomOf(n.rooms, h), RoomOf(m.rooms, h);
      && m.conns == n.conns
      && if s.c in n.conns && h in n.conns[s.c].huddles
         then && Present(after, s.u, now) && after.membersUntil == now + 120 && after.log == before.log
              && (forall v <- before.members + after.members :: v != s.u ==>
                    (Present(after, v, now) <==> Present(before, v, now)))
              && (after.transport.Some? <==> before.transport.Some? && now < before.transport.value)
              && (after.transport.Some? ==> after.transport.value == now + 120)
         else after == before
  {
  }

  /** A new connection is in no huddle; a dropped one is gone, and no room hears of it. */
  lemma ConnectionsCome(n: Node, s: Step, cfg: Option<Sfu>, now: int)
    requires s.Connect? || s.Dropped?
    ensures var m := Next(n, s, cfg, now);
      && m.rooms == n.rooms
      && (forall d :: d != s.c ==> (d in m.conns <==> d in n.conns) && (d in n.conns ==> m.conns[d] == n.conns[d]))
      && (if s.Dropped? then s.c !in m.conns else s.c in m.conns && m.conns[s.c] == Conn(s.u, {}))
  {
  }

  // ---- Members without a connection ----

  /** A step that can leave somebody in the room without a subscription: their subscribed
      connection is dropped, or they join on one that is already gone. */
  predicate Orphans(n: Node, s: Step, u: UserId, h: HuddleId) {
    || (s.Dropped? && s.c in n.conns && n.conns[s.c].user == u && h in n.conns[s.c].huddles)
    || (s.JoinFrame? && s.u == u && s.h == h && s.allowed && s.c !in n.conns)
  }

  ghost predicate OrphanedDuring(steps: seq<Timed>, cfg: Option<Sfu>, u: UserId, h: HuddleId) {
    exists k :: 0 <= k < |steps| && Orphans(Run(START, steps[..k], cfg), steps[k].step, u, h)
  }

  lemma OrphanedLonger(steps: seq<Timed>, cfg: Option<Sfu>, u: UserId, h: HuddleId)
    requires steps != []
    ensures OrphanedDuring(steps[..|steps| - 1], cfg, u, h) ==> OrphanedDuring(steps, cfg, u, h)
    ensures Orphans(Run(START, steps[..|steps| - 1], cfg), steps[|steps| - 1].step, u, h) ==>
              OrphanedDuring(steps, cfg, u, h)
  {
    hide Run, Orphans;
    var before := steps[..|steps| - 1];
    if OrphanedDuring(before, cfg, u, h) {
      var k :| 0 <= k < |before| && Orphans(Run(START, before[..k], cfg), before[k].step, u, h);
      assert before[..k] == steps[..k] && before[k] == steps[k];
    }
  }

  lemma JoinHolds(n: Node, s: Step, cfg: Option<Sfu>, now: int, u: UserId, h: HuddleId)
    requires s.JoinFrame? && Possible(n, s) && AdmitsSomeone(cfg) && NotLapsed(RoomOf(n.rooms, h), now)
    requires u in RoomOf(Next(n, s, cfg, now).rooms, h).members
    requires u in RoomOf(n.rooms, h).members ==> StillSubscribed(n.conns, u, h)
    ensures StillSubscribed(Next(n, s, cfg, now).conns, u, h) || Orphans(n, s, u, h)
  {
    var m := Next(n, s, cfg, now);
    JoiningTouches(n, s, cfg, now);
    if s.allowed && s.h == h { JoinAccounts(RoomOf(n.rooms, h), s.u, cfg, now); }
    if u in RoomOf(n.rooms, h).members {
      var d :| d in n.conns && n.conns[d].user == u && h in n.conns[d].huddles;
      assert d in m.conns && m.conns[d].user == u && h in m.conns[d].huddles;
    } else {
      assert s.u == u && s.h == h && s.allowed;
      AddedIsNotRefused(RoomOf(n.rooms, h), u, cfg, now);
      if s.c in n.conns { assert m.conns[s.c].user == u && h in m.conns[s.c].huddles; }
    }
  }

  /** Whoever a join adds was not refused. */
  lemma AddedIsNotRefused(r: Room, u: UserId, cfg: Option<Sfu>, now: int)
    requires AdmitsSomeone(cfg) && u !in r.members && u in Join(r, u, cfg, now).0.members
    ensures !Join(r, u, cfg, now).1.Full?
  {
  }

  lemma LeaveHolds(n: Node, s: Step, cfg: Option<Sfu>, now: int, u: UserId, h: HuddleId)
    requires (s.LeaveFrame? || s.Cleanup?) && Possible(n, s) && NotLapsed(RoomOf(n.rooms, h), now)
    requires u in RoomOf(Next(n, s, cfg, now).rooms, h).members
    requires u in RoomOf(n.rooms, h).members ==> StillSubscribed(n.conns, u, h)
    ensures StillSubscribed(Next(n, s, cfg, now).conns, u, h)
  {
    var m := Next(n, s, cfg, now);
    LeavingTouches(n, s, cfg, now);
    MembersShrink(n, s, cfg, now, h);
    var d :| d in n.conns && n.conns[d].user == u && h in n.conns[d].huddles;
    if d != s.c || !TakesOut(n, s, h) {
      assert d in m.conns && m.conns[d].user == u && h in m.conns[d].huddles;
    } else {
      LeavingFrees(n, s, cfg, now, h);
    }
  }

  lemma MembersShrink(n: Node, s: Step, cfg: Option<Sfu>, now: int, h: HuddleId)
    requires (s.LeaveFrame? || s.Cleanup?)
    ensures var before, after := RoomOf(n.rooms, h), RoomOf(Next(n, s, cfg, now).rooms, h);
      after.members <= before.members && after.membersUntil == before.membersUntil
  {
  }

  lemma StepHolds(n: Node, s: Step, cfg: Option<Sfu>, now: int, u: UserId, h: HuddleId)
    requires Possible(n, s) && AdmitsSomeone(cfg) && NotLapsed(RoomOf(n.rooms, h), now)
    requires u in RoomOf(Next(n, s, cfg, now).rooms, h).members
    requires u in RoomOf(n.rooms, h).members ==> StillSubscribed(n.conns, u, h)
    ensures StillSubscribed(Next(n, s, cfg, now).conns, u, h) || Orphans(n, s, u, h)
  {
    match s
    case JoinFrame(_, _, _, _) => JoinHolds(n, s, cfg, now, u, h);
    case LeaveFrame(_, _, _) => LeaveHolds(n, s, cfg, now, u, h);
    case Cleanup(_, _) => LeaveHolds(n, s, cfg, now, u, h);
    case Heartbeat(c, v) =>
      HeartbeatHolds(n, s, cfg, now, h);
      if u !in RoomOf(n.rooms, h).members { assert c in n.conns && n.conns[c].user == u && h in n.conns[c].huddles; }
    case Connect(c, _) =>
      var d :| d in n.conns && n.conns[d].user == u && h in n.conns[d].huddles;
      assert Next(n, s, cfg, now).conns[d] == n.conns[d];
    case Dropped(c) =>
      var d :| d in n.conns && n.conns[d].user == u && h in n.conns[d].huddles;
      assert d != c ==> Next(n, s, cfg, now).conns[d] == n.conns[d];
  }

  /** After every run without a lapse a member of a huddle has a connection subscribed to
      it, unless one was dropped for being slow, or they joined on one already gone. */
  lemma {:induction false} MembersAreHeld(steps: seq<Timed>, cfg: Option<Sfu>, h: HuddleId, u: UserId)
    requires AdmitsSomeone(cfg) && Regular(steps, cfg)
    requires u in RoomOf(Run(START, steps, cfg).rooms, h).members
    ensures StillSubscribed(Run(START, steps, cfg).conns, u, h) || OrphanedDuring(steps, cfg, u, h)
  {
    hide Next, Possible, Orphans, StillSubscribed;
    if steps != [] {
      var before, last := steps[..|steps| - 1], steps[|steps| - 1];
      var n := Run(START, before, cfg);
      assert NotLapsed(RoomOf(n.rooms, h), last.now);
      OrphanedLonger(steps, cfg, u, h);
      if u in RoomOf(n.rooms, h).members { MembersAreHeld(before, cfg, h, u); }
      if !OrphanedDuring(before, cfg, u, h) { StepHolds(n, last.step, cfg, last.now, u, h); }
    } else {
      NobodyAtStart(cfg, h);
    }
  }

  lemma NobodyAtStart(cfg: Option<Sfu>, h: HuddleId)
    ensures RoomOf(Run(START, [], cfg).rooms, h).members == {}
  {
  }
}
