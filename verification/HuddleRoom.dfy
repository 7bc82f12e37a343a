/**
 One huddle as Redis and the event log see it: the member set with its time to
 live, the transport key with its own, and the published joined/left events.
 Every command starts from `AsOf`, because Redis drops a key at its deadline.
 */
module HuddleRoom {
  import opened Options

  type UserId = nat

  const TTL := 120
  const MESH_LIMIT := 8

  datatype Sfu = Sfu(threshold: nat, maxParticipants: nat)

  datatype Event = Joined(user: UserId) | Left(user: UserId)

  datatype Room = Room(
    members: set<UserId>, membersUntil: int, transport: Option<int>,
    log: seq<Event>, promotions: seq<int>)

  const EMPTY := Room({}, 0, None, [], [])

  datatype Transport = Mesh | OnSfu

  datatype JoinResult = Full(limit: nat) | Accepted(transport: Transport, promoted: bool)

  function Threshold(cfg: Option<Sfu>): int {
    match cfg case Some(s) => s.threshold case None => -1
  }

  function SfuLimit(cfg: Option<Sfu>): nat {
    match cfg case Some(s) => s.maxParticipants case None => MESH_LIMIT
  }

  /** What start-up insists on: a huddle must be able to reach its promotion. */
  predicate StartsUp(cfg: Option<Sfu>) {
    cfg.Some? ==> cfg.value.threshold < MESH_LIMIT
  }

  function AsOf(r: Room, now: int): Room {
    r.(members := if r.membersUntil <= now then {} else r.members,
       transport := if r.transport.Some? && r.transport.value <= now then None else r.transport)
  }

  function Live(r: Room, now: int): set<UserId> { AsOf(r, now).members }

  predicate IsOnSfu(r: Room, now: int) { AsOf(r, now).transport.Some? }

  /** The join script: the new keys and the code it returns. */
  function JoinScript(room: Room, user: UserId, cfg: Option<Sfu>, now: int): (Room, int) {
    var r := AsOf(room, now);
    var onSfu := r.transport.Some?;
    var limit := if onSfu then SfuLimit(cfg) else MESH_LIMIT;
    if user !in r.members && |r.members| >= limit then (r, -limit)
    else
      var added := r.(members := r.members + {user}, membersUntil := now + TTL);
      if onSfu then (added.(transport := Some(now + TTL)), 2)
      else if Threshold(cfg) >= 0 && |added.members| > Threshold(cfg)
      then (added.(transport := Some(now + TTL)), 3)
      else (added, 1)
  }

  /** How the gateway reads the code. */
  function Decode(code: int): JoinResult {
    if code < 0 then Full(-code)
    else if code == 2 then Accepted(OnSfu, false)
    else if code == 3 then Accepted(OnSfu, true)
    else Accepted(Mesh, false)
  }

  predicate Refused(room: Room, user: UserId, cfg: Option<Sfu>, now: int) {
    var r := AsOf(room, now);
    user !in r.members && |r.members| >= (if r.transport.Some? then SfuLimit(cfg) else MESH_LIMIT)
  }

  /** `huddle.join` on the room: the script, then the published event(s). */
  function Join(room: Room, user: UserId, cfg: Option<Sfu>, now: int): (Room, JoinResult) {
    var (r, code) := JoinScript(room, user, cfg, now);
    match Decode(code)
    case Full(limit) => (r, Full(limit))
    case Accepted(t, promoted) =>
      (r.(log := r.log + [Joined(user)],
          promotions := if promoted then r.promotions + [now] else r.promotions),
       Accepted(t, promoted))
  }

  /** SREM, and the published event when something was removed. */
  function Leave(room: Room, user: UserId, now: int): Room {
    var r := AsOf(room, now);
    if user in r.members
    then r.(members := r.members - {user}, log := r.log + [Left(user)])
    else r
  }

  /** SADD, EXPIRE, EXPIRE: the heartbeat adds without asking the script. The
      three commands may run at different moments. */
  function RefreshSpread(room: Room, user: UserId, t1: int, t2: int, t3: int): Room {
    var added := var r := AsOf(room, t1);
      r.(members := r.members + {user},
         membersUntil := if r.members == {} then t2 + TTL else r.membersUntil);
    var kept := AsOf(added, t2);
    var extended := if kept.members == {} then kept else kept.(membersUntil := t2 + TTL);
    var seen := AsOf(extended, t3);
    if seen.transport.Some? then seen.(transport := Some(t3 + TTL)) else seen
  }

  function Refresh(room: Room, user: UserId, now: int): Room {
    var r := AsOf(room, now);
    r.(members := r.members + {user}, membersUntil := now + TTL,
       transport := if r.transport.Some? then Some(now + TTL) else None)
  }
}
