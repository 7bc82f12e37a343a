/**
 One gateway's huddle traffic: its connections with their subscriptions, and the
 rooms in Redis. `Next` says what one frame, heartbeat or disconnect does; the
 class performs it in place, in the order the gateway does.
 */
module HuddleNode {
  import opened Options
  import opened HuddleRoom
  import opened HuddleLaws

  type ConnId = nat
  type HuddleId = nat

  datatype Conn = Conn(user: UserId, huddles: set<HuddleId>)

  datatype Node = Node(conns: map<ConnId, Conn>, rooms: map<HuddleId, Room>)

  datatype Step =
    | Connect(c: ConnId, u: UserId)
    | JoinFrame(c: ConnId, u: UserId, h: HuddleId, allowed: bool)
    | LeaveFrame(c: ConnId, u: UserId, h: HuddleId)
    | Cleanup(c: ConnId, u: UserId)
    | Heartbeat(c: ConnId, u: UserId)
    | Dropped(c: ConnId)

  datatype Timed = At(step: Step, now: int)

  function RoomOf(rooms: map<HuddleId, Room>, h: HuddleId): Room {
    if h in rooms then rooms[h] else EMPTY
  }

  function HuddlesOf(conns: map<ConnId, Conn>, c: ConnId): set<HuddleId> {
    if c in conns then conns[c].huddles else {}
  }

  /** Whether some local connection of the user is subscribed. */
  predicate UserInHuddle(conns: map<ConnId, Conn>, u: UserId, h: HuddleId) {
    exists c <- conns :: conns[c].user == u && h in conns[c].huddles
  }

  function Subscribe(conns: map<ConnId, Conn>, c: ConnId, h: HuddleId): map<ConnId, Conn> {
    if c in conns then conns[c := conns[c].(huddles := conns[c].huddles + {h})] else conns
  }

  function Unsubscribe(conns: map<ConnId, Conn>, c: ConnId, h: HuddleId): map<ConnId, Conn> {
    if c in conns then conns[c := conns[c].(huddles := conns[c].huddles - {h})] else conns
  }

  function LeaveUnlessHeld(conns: map<ConnId, Conn>, u: UserId, h: HuddleId, r: Room, now: int): Room {
    if UserInHuddle(conns, u, h) then r else Leave(r, u, now)
  }

  function LeaveAll(
    conns: map<ConnId, Conn>, u: UserId, hs: set<HuddleId>, rooms: map<HuddleId, Room>, now: int)
    : map<HuddleId, Room>
  {
    rooms + map h | h in hs :: LeaveUnlessHeld(conns, u, h, RoomOf(rooms, h), now)
  }

  function RefreshAll(u: UserId, hs: set<HuddleId>, rooms: map<HuddleId, Room>, now: int)
    : map<HuddleId, Room>
  {
    rooms + map h | h in hs :: Refresh(RoomOf(rooms, h), u, now)
  }

  function Next(n: Node, s: Step, cfg: Option<Sfu>, now: int): Node {
    match s
    case Connect(c, u) => n.(conns := n.conns[c := Conn(u, {})])
    case JoinFrame(c, u, h, allowed) =>
      if !allowed then n else
      var (r, answer) := Join(RoomOf(n.rooms, h), u, cfg, now);
      Node(if answer.Full? then n.conns else Subscribe(n.conns, c, h), n.rooms[h := r])
    case LeaveFrame(c, u, h) =>
      var conns := Unsubscribe(n.conns, c, h);
      Node(conns, n.rooms[h := LeaveUnlessHeld(conns, u, h, RoomOf(n.rooms, h), now)])
    case Cleanup(c, u) =>
      Node(n.conns - {c}, LeaveAll(n.conns - {c}, u, HuddlesOf(n.conns, c), n.rooms, now))
    case Heartbeat(c, u) => n.(rooms := RefreshAll(u, HuddlesOf(n.conns, c), n.rooms, now))
    case Dropped(c) => n.(conns := n.conns - {c})
  }

  /** A connection id is fresh when it connects, and its frames carry its user. */
  predicate Possible(n: Node, s: Step) {
    match s
    case Connect(c, u) => c !in n.conns
    case Dropped(c) => true
    case _ => s.c in n.conns ==> n.conns[s.c].user == s.u
  }

  lemma LeaveOneMore(
    conns: map<ConnId, Conn>, u: UserId, done: set<HuddleId>, h: HuddleId,
    rooms: map<HuddleId, Room>, now: int)
    requires h !in done
    ensures LeaveAll(conns, u, done + {h}, rooms, now)
         == LeaveAll(conns, u, done, rooms, now)
              [h := LeaveUnlessHeld(conns, u, h, RoomOf(LeaveAll(conns, u, done, rooms, now), h), now)]
  {
    assert RoomOf(LeaveAll(conns, u, done, rooms, now), h) == RoomOf(rooms, h);
  }

  lemma RefreshOneMore(u: UserId, done: set<HuddleId>, h: HuddleId, rooms: map<HuddleId, Room>, now: int)
    requires h !in done
    ensures RefreshAll(u, done + {h}, rooms, now)
         == RefreshAll(u, done, rooms, now)[h := Refresh(RoomOf(RefreshAll(u, done, rooms, now), h), u, now)]
  {
    assert RoomOf(RefreshAll(u, done, rooms, now), h) == RoomOf(rooms, h);
  }

  class Gateway {
    var conns: map<ConnId, Conn>
    var rooms: map<HuddleId, Room>
    const cfg: Option<Sfu>

    ghost function State(): Node
      reads this
    {
      Node(conns, rooms)
    }

    constructor (cfg: Option<Sfu>)
      ensures State() == Node(map[], map[]) && this.cfg == cfg
    {
      conns, rooms := map[], map[];
      this.cfg := cfg;
    }

    method HuddleJoin(c: ConnId, u: UserId, h: HuddleId, allowed: bool, now: int)
      returns (answer: Option<JoinResult>)
      modifies this
      ensures State() == Next(old(State()), JoinFrame(c, u, h, allowed), cfg, now)
      ensures answer == if allowed then Some(Join(RoomOf(old(rooms), h), u, cfg, now).1) else None
    {
      if !allowed {
        return None;
      }
      var (r, code) := JoinScript(RoomOf(rooms, h), u, cfg, now);
      rooms := rooms[h := r];
      var joined := Decode(code);
      if joined.Full? {
        return Some(joined);
      }
      conns := Subscribe(conns, c, h);
      rooms := rooms[h := r.(log := r.log + [Joined(u)])];
      if joined.promoted {
        rooms := rooms[h := rooms[h].(promotions := r.promotions + [now])];
      }
      return Some(joined);
    }

    method HuddleLeave(c: ConnId, u: UserId, h: HuddleId, now: int)
      modifies this
      ensures State() == Next(old(State()), LeaveFrame(c, u, h), cfg, now)
    {
      conns := Unsubscribe(conns, c, h);
      var room := RoomOf(rooms, h);
      if !UserInHuddle(conns, u, h) {
        room := Leave(room, u, now);
      }
      rooms := rooms[h := room];
    }

    method Disconnect(c: ConnId, u: UserId, now: int)
      modifies this
      ensures State() == Next(old(State()), Cleanup(c, u), cfg, now)
    {
      var rest := HuddlesOf(conns, c);
      ghost var all := rest;
      conns := conns - {c};
      while rest != {}
        invariant rest <= all
        invariant conns == old(conns) - {c}
        invariant rooms == LeaveAll(conns, u, all - rest, old(rooms), now)
      {
        var h :| h in rest;
        LeaveOneMore(conns, u, all - rest, h, old(rooms), now);
        var room := RoomOf(rooms, h);
        if !UserInHuddle(conns, u, h) {
          room := Leave(room, u, now);
        }
        assert room == LeaveUnlessHeld(conns, u, h, RoomOf(rooms, h), now);
        rooms := rooms[h := room];
        assert all - (rest - {h}) == (all - rest) + {h};
        rest := rest - {h};
      }
      assert all - rest == all;
    }

    method RefreshConn(c: ConnId, u: UserId, now: int)
      modifies this
      ensures State() == Next(old(State()), Heartbeat(c, u), cfg, now)
    {
      var rest := HuddlesOf(conns, c);
      ghost var all := rest;
      while rest != {}
        invariant rest <= all
        invariant conns == old(conns)
        invariant rooms == RefreshAll(u, all - rest, old(rooms), now)
      {
        var h :| h in rest;
        RefreshOneMore(u, all - rest, h, old(rooms), now);
        rooms := rooms[h := Refresh(RoomOf(rooms, h), u, now)];
        assert all - (rest - {h}) == (all - rest) + {h};
        rest := rest - {h};
      }
      assert all - rest == all;
    }
  }
}
