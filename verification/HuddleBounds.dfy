/** The huddle bounds are reached, and what they ask of the configuration is needed. */
module HuddleBounds {
  import opened Options
  import opened HuddleRoom
  import opened HuddleLaws
  import opened HuddleNode
  import opened HuddleRuns

  function After(steps: seq<Timed>, cfg: Option<Sfu>, h: HuddleId): Room {
    RoomOf(Run(START, steps, cfg).rooms, h)
  }

  ghost predicate Regular(steps: seq<Timed>, cfg: Option<Sfu>) {
    Legal(START, steps, cfg) && NoLapse(START, steps, cfg)
  }

  /** The most any huddle can hold. */
  function Most(cfg: Option<Sfu>): nat { Cap(cfg, cfg.Some?) }

  function Users(k: nat): set<UserId> { if k == 0 then {} else Users(k - 1) + {k - 1} }

  /** A user connects and joins. */
  function Arrival(u: UserId, h: HuddleId): seq<Timed> {
    [At(Connect(u, u), 0), At(JoinFrame(u, u, h, true), 0)]
  }

  lemma {:induction false} UsersGrow(k: nat)
    ensures Users(k + 1) == Users(k) + {k} && |Users(k)| == k && forall u <- Users(k) :: u < k
  {
    if k > 0 { UsersGrow(k - 1); }
  }

  ghost predicate AllAtZero(steps: seq<Timed>) {
    forall i :: 0 <= i < |steps| ==> steps[i].now == 0
  }

  /** The room holds the first `k` users, all seated at time zero. */
  predicate Holds(r: Room, cfg: Option<Sfu>, k: nat) {
    && r.members == Users(k) && (k > 0 ==> r.membersUntil == TTL)
    && r.transport == if cfg.Some? && k > cfg.value.threshold then Some(TTL) else None
  }

  lemma JoinSeats(r: Room, cfg: Option<Sfu>, k: nat)
    requires StartsUp(cfg) && Holds(r, cfg, k) && k < Most(cfg)
    ensures Join(r, k, cfg, 0).1.Accepted? && Holds(Join(r, k, cfg, 0).0, cfg, k + 1)
  {
    UsersGrow(k);
    UsersGrow(k + 1);
    assert AsOf(r, 0).members == Users(k);
  }

  /** The run so far is regular, all at time zero, and has seated the first `k` users. */
  ghost predicate Seated(steps: seq<Timed>, cfg: Option<Sfu>, h: HuddleId, k: nat) {
    var n := Run(START, steps, cfg);
    && Regular(steps, cfg) && AllAtZero(steps)
    && n.conns.Keys == Users(k) && n.rooms.Keys <= {h} && Holds(RoomOf(n.rooms, h), cfg, k)
  }

  /** One more step at time zero. */
  lemma Extend(steps: seq<Timed>, s: Step, cfg: Option<Sfu>)
    requires Regular(steps, cfg) && AllAtZero(steps)
    requires Possible(Run(START, steps, cfg), s) && AllFresh(Run(START, steps, cfg), 0)
    ensures var more := steps + [At(s, 0)];
      && Regular(more, cfg) && AllAtZero(more)
      && Run(START, more, cfg) == Next(Run(START, steps, cfg), s, cfg, 0)
  {
    assert (steps + [At(s, 0)])[..|steps|] == steps;
  }

  lemma OneRoomIsFresh(n: Node, cfg: Option<Sfu>, h: HuddleId, k: nat)
    requires n.rooms.Keys <= {h} && Holds(RoomOf(n.rooms, h), cfg, k)
    ensures AllFresh(n, 0)
  {
    forall h': HuddleId ensures NotLapsed(RoomOf(n.rooms, h'), 0) {
      if h' != h { assert RoomOf(n.rooms, h') == EMPTY; }
    }
  }

  lemma Connected(steps: seq<Timed>, cfg: Option<Sfu>, h: HuddleId, k: nat)
    requires Seated(steps, cfg, h, k)
    ensures var more := steps + [At(Connect(k, k), 0)];
      var n := Run(START, more, cfg);
      && Regular(more, cfg) && AllAtZero(more) && AllFresh(n, 0)
      && n == Node(Run(START, steps, cfg).conns[k := Conn(k, {})], Run(START, steps, cfg).rooms)
      && n.conns.Keys == Users(k + 1)
  {
    var n := Run(START, steps, cfg);
    OneRoomIsFresh(n, cfg, h, k);
    UsersGrow(k);
    assert k !in n.conns;
    Extend(steps, Connect(k, k), cfg);
    assert n.conns[k := Conn(k, {})].Keys == n.conns.Keys + {k};
  }

  lemma SeatOne(steps: seq<Timed>, cfg: Option<Sfu>, h: HuddleId, k: nat)
    requires StartsUp(cfg) && Seated(steps, cfg, h, k) && k < Most(cfg)
    ensures Seated(steps + Arrival(k, h), cfg, h, k + 1)
  {
    Connected(steps, cfg, h, k);
    UsersGrow(k);
    var connected := steps + [At(Connect(k, k), 0)];
    Extend(connected, JoinFrame(k, k, h, true), cfg);
    assert steps + Arrival(k, h) == connected + [At(JoinFrame(k, k, h, true), 0)];
    JoinSeats(After(steps, cfg, h), cfg, k);
  }

  lemma NobodySeated(cfg: Option<Sfu>, h: HuddleId)
    ensures Seated([], cfg, h, 0)
  {
    assert Run(START, [], cfg) == START;
  }

  lemma {:induction false} Seats(k: nat, cfg: Option<Sfu>, h: HuddleId) returns (steps: seq<Timed>)
    requires StartsUp(cfg) && k <= Most(cfg)
    ensures Seated(steps, cfg, h, k)
  {
    hide Seated, Arrival;
    if k == 0 {
      steps := [];
      NobodySeated(cfg, h);
    } else {
      var before := Seats(k - 1, cfg, h);
      SeatOne(before, cfg, h, k - 1);
      steps := before + Arrival(k - 1, h);
    }
  }

  /** Every number of members up to the cap of its transport is reached, so no
      smaller bound holds. */
  lemma CapIsReached(k: nat, cfg: Option<Sfu>, h: HuddleId) returns (steps: seq<Timed>)
    requires StartsUp(cfg) && k <= Most(cfg)
    ensures var r := After(steps, cfg, h);
      && Regular(steps, cfg)
      && |Live(r, 0)| == k && (IsOnSfu(r, 0) <==> cfg.Some? && k > cfg.value.threshold)
  {
    steps := Seats(k, cfg, h);
    UsersGrow(k);
  }

  ghost predicate CapHolds(cfg: Option<Sfu>) {
    forall steps, h: HuddleId, t: int :: Regular(steps, cfg) ==>
      |Live(After(steps, cfg, h), t)| <= Cap(cfg, IsOnSfu(After(steps, cfg, h), t))
  }

  ghost predicate RosterHolds(cfg: Option<Sfu>) {
    forall steps, h: HuddleId :: Regular(steps, cfg) ==>
      Roster(After(steps, cfg, h).log) == After(steps, cfg, h).members
  }

  /** A full huddle whose limit is zero turns nobody away, yet seats nobody either. */
  lemma JoinIntrudes(r: Room, s: Sfu, k: nat)
    requires s.maxParticipants == 0 && k == s.threshold + 1 && Holds(r, Some(s), k)
    ensures var (after, answer) := Join(r, k, Some(s), 0);
      answer.Accepted? && Holds(after, Some(s), k) && k in Roster(after.log)
  {
    UsersGrow(k);
    assert AsOf(r, 0).members == Users(k);
    var after := Join(r, k, Some(s), 0).0;
    assert after.log == r.log + [Joined(k)];
    assert after.log[..|after.log| - 1] == r.log;
  }

  /** One more asks to enter such a huddle. */
  lemma Intruder(s: Sfu, h: HuddleId) returns (steps: seq<Timed>)
    requires StartsUp(Some(s)) && s.maxParticipants == 0
    ensures Regular(steps, Some(s)) && AllAtZero(steps) && AllFresh(Run(START, steps, Some(s)), 0)
    ensures var n, k := Run(START, steps, Some(s)), s.threshold + 1;
      && k in n.conns && n.conns[k] == Conn(k, {h})
      && Holds(RoomOf(n.rooms, h), Some(s), k) && k in Roster(RoomOf(n.rooms, h).log)
  {
    var cfg, k := Some(s), s.threshold + 1;
    var seated := Seats(k, cfg, h);
    Connected(seated, cfg, h, k);
    var connected := seated + [At(Connect(k, k), 0)];
    Extend(connected, JoinFrame(k, k, h, true), cfg);
    steps := connected + [At(JoinFrame(k, k, h, true), 0)];
    JoinIntrudes(After(seated, cfg, h), s, k);
    OneRoomIsFresh(Run(START, steps, cfg), cfg, h, k);
  }

  /** The cap holds over every regular run if and only if the SFU admits someone. */
  lemma CapHoldsIff(cfg: Option<Sfu>)
    requires StartsUp(cfg)
    ensures CapHolds(cfg) <==> AdmitsSomeone(cfg)
  {
    if AdmitsSomeone(cfg) {
      forall steps, h: HuddleId, t: int | Regular(steps, cfg)
        ensures |Live(After(steps, cfg, h), t)| <= Cap(cfg, IsOnSfu(After(steps, cfg, h), t))
      {
        CapOverRuns(steps, cfg, h, t);
      }
    } else {
      var k := cfg.value.threshold + 1;
      var steps := Intruder(cfg.value, 0);
      Extend(steps, Heartbeat(k, k), cfg);
      UsersGrow(k);
      UsersGrow(k + 1);
      var more := steps + [At(Heartbeat(k, k), 0)];
      var r := After(more, cfg, 0);
      assert r == Refresh(After(steps, cfg, 0), k, 0);
      assert Live(r, 0) == Users(k + 1);
      assert |Live(r, 0)| == k + 1;
    }
  }

  /** So does the roster. */
  lemma RosterHoldsIff(cfg: Option<Sfu>)
    requires StartsUp(cfg)
    ensures RosterHolds(cfg) <==> AdmitsSomeone(cfg)
  {
    if AdmitsSomeone(cfg) {
      forall steps, h: HuddleId | Regular(steps, cfg)
        ensures Roster(After(steps, cfg, h).log) == After(steps, cfg, h).members
      {
        RosterOverRuns(steps, cfg, h);
      }
    } else {
      var k := cfg.value.threshold + 1;
      var steps := Intruder(cfg.value, 0);
      UsersGrow(k);
      assert k !in After(steps, cfg, 0).members;
    }
  }
}
