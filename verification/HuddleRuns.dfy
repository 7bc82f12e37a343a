/** Huddle laws over whole runs of a gateway. */
module HuddleRuns {
  import opened Options
  import opened HuddleRoom
  import opened HuddleLaws
  import opened HuddleNode

  const START := Node(map[], map[])

  function Run(n: Node, steps: seq<Timed>, cfg: Option<Sfu>): Node {
    if steps == [] then n else
      var last := steps[|steps| - 1];
      Next(Run(n, steps[..|steps| - 1], cfg), last.step, cfg, last.now)
  }

  /** Time does not run backwards and every step is possible where it happens. */
  predicate Legal(n: Node, steps: seq<Timed>, cfg: Option<Sfu>) {
    steps != [] ==>
      var before := steps[..|steps| - 1];
      var last := steps[|steps| - 1];
      && Legal(n, before, cfg)
      && Possible(Run(n, before, cfg), last.step)
      && (before != [] ==> before[|before| - 1].now <= last.now)
  }

  /** No occupied member set has reached its deadline when a step is taken. */
  ghost predicate NoLapse(n: Node, steps: seq<Timed>, cfg: Option<Sfu>) {
    steps != [] ==>
      var before := steps[..|steps| - 1];
      && NoLapse(n, before, cfg)
      && AllFresh(Run(n, before, cfg), steps[|steps| - 1].now)
  }

  ghost predicate AllFresh(n: Node, now: int) {
    forall h: HuddleId :: NotLapsed(RoomOf(n.rooms, h), now)
  }

  /** Whoever is subscribed is a member: what makes the unchecked heartbeat safe. */
  ghost predicate SubscribedAreMembers(conns: map<ConnId, Conn>, h: HuddleId, members: set<UserId>) {
    forall c <- conns :: h in conns[c].huddles ==> conns[c].user in members
  }

  ghost predicate RoomKeeps(r: Room, conns: map<ConnId, Conn>, h: HuddleId, cfg: Option<Sfu>) {
    && TransportOutlives(r) && Capped(r, cfg) && Faithful(r)
    && SubscribedAreMembers(conns, h, r.members)
  }

  ghost predicate Inv(n: Node, cfg: Option<Sfu>) {
    forall h: HuddleId :: RoomKeeps(RoomOf(n.rooms, h), n.conns, h, cfg)
  }

  lemma JoinKeepsRoom(r: Room, conns: map<ConnId, Conn>, c: ConnId, u: UserId, h: HuddleId,
                      cfg: Option<Sfu>, now: int)
    requires StartsUp(cfg) && AdmitsSomeone(cfg) && RoomKeeps(r, conns, h, cfg) && NotLapsed(r, now)
    requires c in conns ==> conns[c].user == u
    ensures var (after, answer) := Join(r, u, cfg, now);
      RoomKeeps(after, if answer.Full? then conns else Subscribe(conns, c, h), h, cfg)
  {
    TransportOutlivesKept(r, u, cfg, now);
    JoinKeepsCap(r, u, cfg, now);
    JoinKeepsFaith(r, u, cfg, now);
    JoinAnswer(r, u, cfg, now);
    var after := Join(r, u, cfg, now).0;
    assert r.members <= after.members && after.members == Live(after, now);
  }

  lemma JoinStep(n: Node, c: ConnId, u: UserId, h: HuddleId, allowed: bool, cfg: Option<Sfu>, now: int)
    requires StartsUp(cfg) && AdmitsSomeone(cfg) && Inv(n, cfg) && AllFresh(n, now)
    requires Possible(n, JoinFrame(c, u, h, allowed))
    ensures Inv(Next(n, JoinFrame(c, u, h, allowed), cfg, now), cfg)
  {
    var after := Next(n, JoinFrame(c, u, h, allowed), cfg, now);
    forall h': HuddleId ensures RoomKeeps(RoomOf(after.rooms, h'), after.conns, h', cfg) {
      assert RoomKeeps(RoomOf(n.rooms, h'), n.conns, h', cfg);
      if allowed && h' == h { JoinKeepsRoom(RoomOf(n.rooms, h), n.conns, c, u, h, cfg, now); }
    }
  }

  lemma LeaveKeepsRoom(r: Room, conns: map<ConnId, Conn>, u: UserId, h: HuddleId,
                       cfg: Option<Sfu>, now: int)
    requires RoomKeeps(r, conns, h, cfg) && NotLapsed(r, now)
    ensures RoomKeeps(LeaveUnlessHeld(conns, u, h, r, now), conns, h, cfg)
  {
    TransportOutlivesKept(r, u, cfg, now);
    LeaveKeeps(r, u, cfg, now);
  }

  lemma LeaveFrameStep(n: Node, c: ConnId, u: UserId, h: HuddleId, cfg: Option<Sfu>, now: int)
    requires Inv(n, cfg) && AllFresh(n, now)
    ensures Inv(Next(n, LeaveFrame(c, u, h), cfg, now), cfg)
  {
    var after := Next(n, LeaveFrame(c, u, h), cfg, now);
    forall h': HuddleId ensures RoomKeeps(RoomOf(after.rooms, h'), after.conns, h', cfg) {
      assert RoomKeeps(RoomOf(n.rooms, h'), n.conns, h', cfg);
      assert SubscribedAreMembers(after.conns, h', RoomOf(n.rooms, h').members);
      LeaveKeepsRoom(RoomOf(n.rooms, h'), after.conns, u, h', cfg, now);
    }
  }

  lemma CleanupStep(n: Node, c: ConnId, u: UserId, cfg: Option<Sfu>, now: int)
    requires Inv(n, cfg) && AllFresh(n, now)
    ensures Inv(Next(n, Cleanup(c, u), cfg, now), cfg)
  {
    var after := Next(n, Cleanup(c, u), cfg, now);
    forall h': HuddleId ensures RoomKeeps(RoomOf(after.rooms, h'), after.conns, h', cfg) {
      assert RoomKeeps(RoomOf(n.rooms, h'), n.conns, h', cfg);
      assert SubscribedAreMembers(after.conns, h', RoomOf(n.rooms, h').members);
      LeaveKeepsRoom(RoomOf(n.rooms, h'), after.conns, u, h', cfg, now);
    }
  }

  lemma HeartbeatStep(n: Node, c: ConnId, u: UserId, cfg: Option<Sfu>, now: int)
    requires Inv(n, cfg) && AllFresh(n, now) && Possible(n, Heartbeat(c, u))
    ensures Inv(Next(n, Heartbeat(c, u), cfg, now), cfg)
  {
    var after := Next(n, Heartbeat(c, u), cfg, now);
    forall h': HuddleId ensures RoomKeeps(RoomOf(after.rooms, h'), after.conns, h', cfg) {
      var r := RoomOf(n.rooms, h');
      assert RoomKeeps(r, n.conns, h', cfg);
      if h' in HuddlesOf(n.conns, c) {
        TransportOutlivesKept(r, u, cfg, now);
        RefreshKeeps(r, u, cfg, now);
      }
    }
  }

  /** A new connection has no subscriptions; a dropped one loses its own. */
  lemma ConnectionChange(n: Node, conns: map<ConnId, Conn>, cfg: Option<Sfu>)
    requires Inv(n, cfg)
    requires forall c <- conns :: conns[c].huddles == {} || (c in n.conns && conns[c] == n.conns[c])
    ensures Inv(n.(conns := conns), cfg)
  {
    forall h: HuddleId ensures RoomKeeps(RoomOf(n.rooms, h), conns, h, cfg) {
      assert RoomKeeps(RoomOf(n.rooms, h), n.conns, h, cfg);
    }
  }

  lemma StepKeepsInv(n: Node, s: Step, cfg: Option<Sfu>, now: int)
    requires StartsUp(cfg) && AdmitsSomeone(cfg) && Inv(n, cfg) && AllFresh(n, now) && Possible(n, s)
    ensures Inv(Next(n, s, cfg, now), cfg)
  {
    match s
    case Connect(c, u) => ConnectionChange(n, n.conns[c := Conn(u, {})], cfg);
    case JoinFrame(c, u, h, allowed) => JoinStep(n, c, u, h, allowed, cfg, now);
    case LeaveFrame(c, u, h) => LeaveFrameStep(n, c, u, h, cfg, now);
    case Cleanup(c, u) => CleanupStep(n, c, u, cfg, now);
    case Heartbeat(c, u) => HeartbeatStep(n, c, u, cfg, now);
    case Dropped(c) => ConnectionChange(n, n.conns - {c}, cfg);
  }

  lemma {:induction false} RunKeepsInv(steps: seq<Timed>, cfg: Option<Sfu>)
    requires StartsUp(cfg) && AdmitsSomeone(cfg)
    requires Legal(START, steps, cfg) && NoLapse(START, steps, cfg)
    ensures Inv(Run(START, steps, cfg), cfg)
  {
    if steps != [] {
      var before := steps[..|steps| - 1];
      RunKeepsInv(before, cfg);
      var last := steps[|steps| - 1];
      StepKeepsInv(Run(START, before, cfg), last.step, cfg, last.now);
    }
  }

  /** The cap, at every instant after any such run. */
  lemma CapOverRuns(steps: seq<Timed>, cfg: Option<Sfu>, h: HuddleId, t: int)
    requires StartsUp(cfg) && AdmitsSomeone(cfg)
    requires Legal(START, steps, cfg) && NoLapse(START, steps, cfg)
    ensures var r := RoomOf(Run(START, steps, cfg).rooms, h);
      |Live(r, t)| <= Cap(cfg, IsOnSfu(r, t))
  {
    RunKeepsInv(steps, cfg);
    var r := RoomOf(Run(START, steps, cfg).rooms, h);
    assert RoomKeeps(r, Run(START, steps, cfg).conns, h, cfg);
    if Live(r, t) != {} && r.transport.Some? {
      LiveMembersKeepTransport(r, t);
    }
  }

  /** The roster folded from the published events is the member set, and two
      departures of one user have an arrival between them. */
  lemma RosterOverRuns(steps: seq<Timed>, cfg: Option<Sfu>, h: HuddleId)
    requires StartsUp(cfg) && AdmitsSomeone(cfg)
    requires Legal(START, steps, cfg) && NoLapse(START, steps, cfg)
    ensures var r := RoomOf(Run(START, steps, cfg).rooms, h);
      Roster(r.log) == r.members && Alternating(r.log)
  {
    RunKeepsInv(steps, cfg);
    var n := Run(START, steps, cfg);
    assert RoomKeeps(RoomOf(n.rooms, h), n.conns, h, cfg);
    PlausibleAlternates(RoomOf(n.rooms, h).log);
  }

  /** What a step can do to one room. */
  lemma RoomAfterStep(n: Node, s: Step, cfg: Option<Sfu>, now: int, h: HuddleId)
    ensures var r := RoomOf(n.rooms, h);
      var r' := RoomOf(Next(n, s, cfg, now).rooms, h);
      || r' == r
      || (!s.Dropped? && r' in {Join(r, s.u, cfg, now).0, Leave(r, s.u, now), Refresh(r, s.u, now)})
  {
  }

  lemma {:induction false} TransportOutlivesOverRuns(steps: seq<Timed>, cfg: Option<Sfu>, h: HuddleId)
    ensures TransportOutlives(RoomOf(Run(START, steps, cfg).rooms, h))
  {
    if steps != [] {
      var before := steps[..|steps| - 1];
      var last := steps[|steps| - 1];
      TransportOutlivesOverRuns(before, cfg, h);
      var n := Run(START, before, cfg);
      RoomAfterStep(n, last.step, cfg, last.now, h);
      if !last.step.Dropped? { TransportOutlivesKept(RoomOf(n.rooms, h), last.step.u, cfg, last.now); }
    }
  }

  /** The huddle has live members at every step of the run, just before it and
      just after it. */
  predicate Occupied(n: Node, steps: seq<Timed>, cfg: Option<Sfu>, h: HuddleId) {
    steps != [] ==>
      var before := steps[..|steps| - 1];
      var now := steps[|steps| - 1].now;
      && Occupied(n, before, cfg, h)
      && Live(RoomOf(Run(n, before, cfg).rooms, h), now) != {}
      && Live(RoomOf(Run(n, steps, cfg).rooms, h), now) != {}
  }

  /** Once on the SFU, for as long as it is occupied a huddle stays there and no
      join announces a promotion again, whatever keys lapse elsewhere. */
  lemma {:induction false} NoFallbackWhileOccupied(
    past: seq<Timed>, steps: seq<Timed>, cfg: Option<Sfu>, h: HuddleId)
    requires var n := Run(START, past, cfg);
      RoomOf(n.rooms, h).transport.Some? && Occupied(n, steps, cfg, h)
    ensures var n := Run(START, past, cfg);
      var r := RoomOf(Run(n, steps, cfg).rooms, h);
      && TransportOutlives(r) && r.transport.Some?
      && (steps != [] ==> IsOnSfu(r, steps[|steps| - 1].now))
      && r.promotions == RoomOf(n.rooms, h).promotions
  {
    var n := Run(START, past, cfg);
    if steps == [] {
      TransportOutlivesOverRuns(past, cfg, h);
    } else {
      var before := steps[..|steps| - 1];
      var last := steps[|steps| - 1];
      NoFallbackWhileOccupied(past, before, cfg, h);
      var m := Run(n, before, cfg);
      var r := RoomOf(m.rooms, h);
      LiveMembersKeepTransport(r, last.now);
      RoomAfterStep(m, last.step, cfg, last.now, h);
      if !last.step.Dropped? { TransportOutlivesKept(r, last.step.u, cfg, last.now); }
    }
  }

  /** A join announces a promotion only where there is no transport key, and
      leaves one: at most one announcement in the lifetime of the key. */
  lemma PromotionNeedsNoKey(n: Node, s: Step, cfg: Option<Sfu>, now: int, h: HuddleId)
    ensures var before := RoomOf(n.rooms, h);
      var after := RoomOf(Next(n, s, cfg, now).rooms, h);
      && (IsOnSfu(before, now) ==> after.promotions == before.promotions)
      && (after.promotions != before.promotions ==>
            after.promotions == before.promotions + [now] && after.transport == Some(now + TTL))
  {
    hide Next;
    RoomAfterStep(n, s, cfg, now, h);
  }

  /** At that step of the run the huddle has no transport key. */
  predicate KeyGoneAt(n: Node, steps: seq<Timed>, cfg: Option<Sfu>, h: HuddleId, k: nat)
    requires k < |steps|
  {
    !IsOnSfu(RoomOf(Run(n, steps[..k], cfg).rooms, h), steps[k].now)
  }

  /** At most one announcement in the life of a key: over any run, as from one right
      after an announcement, another is made only if the key was gone at some step. */
  lemma {:induction false} AnnouncedOncePerKey(n: Node, steps: seq<Timed>, cfg: Option<Sfu>, h: HuddleId)
    ensures RoomOf(Run(n, steps, cfg).rooms, h).promotions != RoomOf(n.rooms, h).promotions ==>
              exists k :: 0 <= k < |steps| && KeyGoneAt(n, steps, cfg, h, k)
  {
    hide Next;
    if steps != [] {
      var before, last := steps[..|steps| - 1], steps[|steps| - 1];
      AnnouncedOncePerKey(n, before, cfg, h);
      PromotionNeedsNoKey(Run(n, before, cfg), last.step, cfg, last.now, h);
      if k :| 0 <= k < |before| && KeyGoneAt(n, before, cfg, h, k) {
        assert before[..k] == steps[..k];
        assert KeyGoneAt(n, steps, cfg, h, k);
      } else {
        assert KeyGoneAt(n, steps, cfg, h, |steps| - 1) <==> !IsOnSfu(RoomOf(Run(n, before, cfg).rooms, h), last.now);
      }
    }
  }
}
