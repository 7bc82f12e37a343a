/** What a lapse of the member set costs: the heartbeat's unchecked adds know no cap. */
module HuddleLapse {
  import opened Options
  import opened HuddleRoom
  import opened HuddleLaws
  import opened HuddleNode
  import opened HuddleRuns
  import opened HuddleBounds

  predicate NoLaterThan(steps: seq<Timed>, now: int) { steps != [] ==> steps[|steps| - 1].now <= now }

  lemma ExtendAt(steps: seq<Timed>, s: Step, cfg: Option<Sfu>, now: int)
    requires Legal(START, steps, cfg) && Possible(Run(START, steps, cfg), s) && NoLaterThan(steps, now)
    ensures var more := steps + [At(s, now)];
      && Legal(START, more, cfg) && NoLaterThan(more, now)
      && Run(START, more, cfg) == Next(Run(START, steps, cfg), s, cfg, now)
  {
    assert (steps + [At(s, now)])[..|steps|] == steps;
  }

  /** The first `k` users are connected and subscribed. */
  predicate AllIn(conns: map<ConnId, Conn>, h: HuddleId, k: nat) {
    conns.Keys == Users(k) && forall u <- conns :: conns[u] == Conn(u, {h})
  }

  /** Every key of the room has reached its deadline. */
  predicate Lapsed(r: Room, now: int) {
    r.membersUntil <= now && (r.transport.Some? ==> r.transport.value <= now)
  }

  /** One after another they have joined, each after the set had lapsed; the readers of
      the events still have them all on the roster. */
  ghost predicate Scattered(steps: seq<Timed>, cfg: Option<Sfu>, h: HuddleId, k: nat) {
    var n := Run(START, steps, cfg);
    && Legal(START, steps, cfg) && NoLaterThan(steps, TTL * k) && AllIn(n.conns, h, k)
    && Lapsed(RoomOf(n.rooms, h), TTL * k) && Roster(RoomOf(n.rooms, h).log) == Users(k)
  }

  /** An empty huddle lets anyone in, whatever the limits. */
  lemma JoinLapsed(r: Room, cfg: Option<Sfu>, u: UserId, now: int)
    requires Lapsed(r, now)
    ensures var (after, answer) := Join(r, u, cfg, now);
      answer.Accepted? && Lapsed(after, now + TTL) && Roster(after.log) == Roster(r.log) + {u}
  {
    var after := Join(r, u, cfg, now).0;
    assert AsOf(r, now).members == {} && |AsOf(r, now).members| == 0;
    assert after.log == r.log + [Joined(u)];
    assert after.log[..|after.log| - 1] == r.log;
  }

  lemma Arrives(n: Node, cfg: Option<Sfu>, h: HuddleId, k: nat, now: int)
    requires AllIn(n.conns, h, k) && Lapsed(RoomOf(n.rooms, h), now)
    ensures var connected := Next(n, Connect(k, k), cfg, now);
      var joined := Next(connected, JoinFrame(k, k, h, true), cfg, now);
      && Possible(n, Connect(k, k)) && Possible(connected, JoinFrame(k, k, h, true))
      && AllIn(joined.conns, h, k + 1)
      && RoomOf(joined.rooms, h) == Join(RoomOf(n.rooms, h), k, cfg, now).0
  {
    OneMoreIn(n.conns, h, k);
    JoinLapsed(RoomOf(n.rooms, h), cfg, k, now);
    hide Join, Roster, AllIn, Lapsed;
    var connected := Next(n, Connect(k, k), cfg, now);
    SubscribesNew(n.conns, h, k);
    assert connected.conns == n.conns[k := Conn(k, {})] && connected.rooms == n.rooms;
  }

  lemma OneMoreIn(conns: map<ConnId, Conn>, h: HuddleId, k: nat)
    requires AllIn(conns, h, k)
    ensures k !in conns && AllIn(conns[k := Conn(k, {h})], h, k + 1)
  {
    UsersGrow(k);
    var more := conns[k := Conn(k, {h})];
    assert more.Keys == conns.Keys + {k};
  }

  lemma SubscribesNew(conns: map<ConnId, Conn>, h: HuddleId, k: nat)
    ensures Subscribe(conns[k := Conn(k, {})], k, h) == conns[k := Conn(k, {h})]
  {
    assert {} + {h} == {h};
  }

  lemma ScatterOne(steps: seq<Timed>, cfg: Option<Sfu>, h: HuddleId, k: nat) returns (more: seq<Timed>)
    requires Scattered(steps, cfg, h, k)
    ensures Scattered(more, cfg, h, k + 1)
  {
    hide Next, Possible, Join, Roster, AllIn, Lapsed, Legal, Run;
    var n, now := Run(START, steps, cfg), TTL * k;
    Arrives(n, cfg, h, k, now);
    JoinLapsed(RoomOf(n.rooms, h), cfg, k, now);
    UsersGrow(k);
    ExtendAt(steps, Connect(k, k), cfg, now);
    var connected := steps + [At(Connect(k, k), now)];
    ExtendAt(connected, JoinFrame(k, k, h, true), cfg, now);
    more := connected + [At(JoinFrame(k, k, h, true), now)];
    assert now + TTL == TTL * (k + 1);
  }

  lemma Nobody(cfg: Option<Sfu>, h: HuddleId)
    ensures Scattered([], cfg, h, 0)
  {
    assert Run(START, [], cfg) == START;
  }

  lemma {:induction false} Scatter(k: nat, cfg: Option<Sfu>, h: HuddleId) returns (steps: seq<Timed>)
    ensures Scattered(steps, cfg, h, k)
  {
    hide Scattered;
    if k == 0 {
      steps := [];
      Nobody(cfg, h);
    } else {
      var before := Scatter(k - 1, cfg, h);
      steps := ScatterOne(before, cfg, h, k - 1);
    }
  }

  /** The lapse empties the set and publishes no departure. */
  lemma LapseKeepsRoster(k: nat, cfg: Option<Sfu>, h: HuddleId) returns (steps: seq<Timed>)
    ensures Legal(START, steps, cfg) && NoLaterThan(steps, TTL * k)
    ensures var r := After(steps, cfg, h);
      Live(r, TTL * k) == {} && |Roster(r.log)| == k
  {
    steps := Scatter(k, cfg, h);
    UsersGrow(k);
  }

  /** Then, at one moment, the heartbeats of the first `j` have come. */
  ghost predicate Beaten(steps: seq<Timed>, cfg: Option<Sfu>, h: HuddleId, k: nat, j: nat) {
    var n := Run(START, steps, cfg);
    && Legal(START, steps, cfg) && NoLaterThan(steps, TTL * k) && AllIn(n.conns, h, k)
    && Live(RoomOf(n.rooms, h), TTL * k) == Users(j)
  }

  lemma BeatOne(steps: seq<Timed>, cfg: Option<Sfu>, h: HuddleId, k: nat, j: nat) returns (more: seq<Timed>)
    requires j < k && Beaten(steps, cfg, h, k, j)
    ensures Beaten(more, cfg, h, k, j + 1)
  {
    var n := Run(START, steps, cfg);
    UsersGrow(j);
    UsersHold(j, k);
    ExtendAt(steps, Heartbeat(j, j), cfg, TTL * k);
    more := steps + [At(Heartbeat(j, j), TTL * k)];
    assert HuddlesOf(n.conns, j) == {h};
    var r := RoomOf(Run(START, more, cfg).rooms, h);
    assert r == Refresh(RoomOf(n.rooms, h), j, TTL * k);
    assert Live(r, TTL * k) == Users(j) + {j};
  }

  lemma {:induction false} UsersHold(j: nat, k: nat)
    requires j < k
    ensures j in Users(k)
  {
    if j < k - 1 { UsersHold(j, k - 1); }
  }

  lemma {:induction false} Beat(k: nat, j: nat, cfg: Option<Sfu>, h: HuddleId) returns (steps: seq<Timed>)
    requires j <= k
    ensures Beaten(steps, cfg, h, k, j)
  {
    if j == 0 {
      steps := Scatter(k, cfg, h);
    } else {
      hide Beaten;
      var before := Beat(k, j - 1, cfg, h);
      steps := BeatOne(before, cfg, h, k, j - 1);
    }
  }

  /** Once lapses are possible no bound holds, whatever the configuration: for every
      number some legal run leaves a huddle with as many members. */
  lemma LapseOverfills(k: nat, cfg: Option<Sfu>, h: HuddleId) returns (steps: seq<Timed>)
    ensures Legal(START, steps, cfg) && NoLaterThan(steps, TTL * k)
    ensures |Live(After(steps, cfg, h), TTL * k)| == k
  {
    steps := Beat(k, k, cfg, h);
    UsersGrow(k);
  }
}
