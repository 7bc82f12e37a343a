/** The registry over whole runs: index, bounds, and who can be told what. */
module RegistryRuns {
  import opened Options
  import opened Registry
  import opened Routing

  datatype Op =
    | Add(c: Uuid, user: Uuid, jti: Option<Uuid>)
    | Remove(c: Uuid)
    | JoinAllowed(c: Uuid, allowed: seq<Uuid>)
    | Resubscribe(c: Uuid, channels: set<Uuid>, workspaces: set<Uuid>, huddles: set<Uuid>)
    | Event(a: Audience, e: EventType, p: Payload, sid: Option<string>)
    | Reply(a: Audience, to: Target, message: Message)
    | Drain(c: Uuid, n: nat)
    | Hangup(c: Uuid)

  /** Channels are entered through the membership check alone; leaving one, and
      the workspace and huddle subscriptions, are free. */
  function Apply(conns: Conns, op: Op): Conns {
    match op
    case Add(c, user, jti) => conns[c := Conn(user, jti, [], false, {}, {}, {})]
    case Remove(c) => conns - {c}
    case JoinAllowed(c, allowed) => Joining(conns, c, allowed)
    case Resubscribe(c, channels, workspaces, huddles) =>
      if c in conns
      then conns[c := conns[c].(channels := conns[c].channels * channels,
                                workspaces := workspaces, huddles := huddles)]
      else conns
    case Event(a, e, p, sid) => Handle(conns, a, e, p, sid)
    case Reply(a, to, message) =>
      if to.Channel? then conns else Deliver(conns, Targets(conns, a, to), Queued(message, to))
    case Drain(c, n) =>
      if c in conns && n <= |conns[c].queue|
      then conns[c := conns[c].(queue := conns[c].queue[n..])] else conns
    case Hangup(c) => if c in conns then conns[c := conns[c].(closed := true)] else conns
  }

  function Run(conns: Conns, ops: seq<Op>): Conns {
    if ops == [] then conns else Apply(Run(conns, ops[..|ops| - 1]), ops[|ops| - 1])
  }

  predicate Bounded(conns: Conns) { forall c <- conns :: |conns[c].queue| <= QUEUE_CAP }

  /** A connection id is not given to a second user. */
  predicate Fresh(conns: Conns, op: Op) {
    op.Add? && op.c in conns ==> conns[op.c].user == op.user
  }

  lemma {:induction false} PlanKeepsBound(conns: Conns, a: Audience, plan: seq<Action>, sid: Option<string>)
    requires Bounded(conns)
    ensures Bounded(PerformAll(conns, a, plan, sid))
  {
    if plan != [] { PlanKeepsBound(conns, a, plan[..|plan| - 1], sid); }
  }

  lemma OpKeepsBound(conns: Conns, op: Op)
    requires Bounded(conns)
    ensures Bounded(Apply(conns, op))
  {
    if op.Event? { PlanKeepsBound(conns, op.a, Plan(op.e, op.p), op.sid); }
  }

  method PerformOp(cm: ConnectionManager, op: Op)
    requires cm.Valid() && Fresh(cm.connections, op)
    modifies cm
    ensures cm.Valid() && cm.connections == Apply(old(cm.connections), op)
  {
    match op
    case Add(c, user, jti) => var first := cm.AddConnection(c, user, jti);
    case Remove(c) => var removed := cm.RemoveConnection(c);
    case JoinAllowed(c, allowed) => cm.JoinChannels(c, allowed);
    case Event(a, e, p, sid) => HandleEventFor(cm, a, e, p, sid);
    case Reply(a, to, message) =>
      if to.User? {
        cm.SendToUser(a, to.user, Queued(message, to));
      } else if !to.Channel? {
        cm.FanOutTo(a, to, Queued(message, to));
      }
    case _ =>
      IndexSame(cm.connections, Apply(cm.connections, op));
      cm.connections := Apply(cm.connections, op);
  }

  /** Whatever is added, removed and fanned out, in whatever order: the two maps
      agree at every step and no queue outgrows its capacity. */
  method RunAll(cm: ConnectionManager, ops: seq<Op>)
    requires cm.Valid() && Bounded(cm.connections)
    requires forall i :: 0 <= i < |ops| ==> Fresh(Run(cm.connections, ops[..i]), ops[i])
    modifies cm
    ensures cm.userConnections == IndexOf(cm.connections)
    ensures cm.connections == Run(old(cm.connections), ops)
    ensures Bounded(cm.connections)
  {
    var i := 0;
    while i < |ops|
      invariant i <= |ops|
      invariant cm.Valid() && Bounded(cm.connections)
      invariant cm.connections == Run(old(cm.connections), ops[..i])
    {
      RunExtends(old(cm.connections), ops, i);
      OpKeepsBound(cm.connections, ops[i]);
      PerformOp(cm, ops[i]);
      i := i + 1;
    }
    assert ops[..i] == ops;
  }

  /** Whom the gateway's own messages are for: those in the workspace or the huddle,
      anybody, the one user, whoever shares one of the workspaces, the one connection. */
  predicate IsFor(to: Target, d: Uuid, conn: Conn) {
    || (to.Workspace? && to.workspace in conn.workspaces)
    || (to.Huddle? && to.huddle in conn.huddles)
    || to.Everybody?
    || (to.User? && to.user == conn.user)
    || (to.MembersOf? && exists ws <- to.workspaces :: ws in conn.workspaces)
    || (to.OneConn? && to.conn == d)
  }

  /** A message of the gateway's own is queued on the connections it is for, within the
      audience, and on no other. */
  lemma ReplyReaches(conns: Conns, a: Audience, to: Target, message: Message, d: Uuid)
    requires d in conns && !to.Channel?
    ensures DeliveredTo(conns, Apply(conns, Reply(a, to, message)),
                        (a.Everyone? || a.conn == d) && IsFor(to, d, conns[d]), d, Queued(message, to))
  {
    if to.MembersOf? {
      var shared := conns[d].workspaces * to.workspaces;
      if shared != {} {
        var ws :| ws in shared;
        assert ws in to.workspaces && ws in conns[d].workspaces;
      }
      assert forall ws <- to.workspaces :: ws in conns[d].workspaces ==> ws in shared;
    }
  }

  // ---- Visibility ----

  /** A subscription the connection holds, to a channel or a workspace. */
  predicate Carries(conn: Conn, t: Target) {
    match t
    case Channel(ch) => ch in conn.channels
    case Workspace(ws) => ws in conn.workspaces
    case _ => false
  }

  predicate IsPlace(t: Target) { t.Channel? || t.Workspace? }

  /** Between the two, nothing routed that way was queued on the connection and it did
      not become subscribed. */
  predicate Silent(before: Option<Conn>, after: Option<Conn>, t: Target) {
    after.Some? ==>
      && before.Some? && before.value.queue <= after.value.queue && !Carries(after.value, t)
      && forall k :: |before.value.queue| <= k < |after.value.queue| ==> after.value.queue[k].via != t
  }

  predicate Unsubscribed(conns: Conns, d: Uuid, t: Target) { d in conns ==> !Carries(conns[d], t) }

  lemma PerformIsSilent(conns: Conns, a: Audience, action: Action, sid: Option<string>, d: Uuid, t: Target)
    requires IsPlace(t) && Unsubscribed(conns, d, t)
    ensures Silent(Lookup(conns, d), Lookup(Perform(conns, a, action, sid), d), t)
  {
  }

  lemma {:induction false} PlanIsSilent(
    conns: Conns, a: Audience, plan: seq<Action>, sid: Option<string>, d: Uuid, t: Target)
    requires IsPlace(t) && Unsubscribed(conns, d, t)
    ensures Silent(Lookup(conns, d), Lookup(PerformAll(conns, a, plan, sid), d), t)
  {
    if plan != [] {
      hide Perform;
      var before := plan[..|plan| - 1];
      PlanIsSilent(conns, a, before, sid, d, t);
      PerformIsSilent(PerformAll(conns, a, before, sid), a, plan[|plan| - 1], sid, d, t);
    }
  }

  /** An operation that lets the connection in again: a join the membership check
      allowed, or a new subscription to the workspace. */
  predicate Readmits(op: Op, d: Uuid, t: Target) {
    || (op.JoinAllowed? && op.c == d && t.Channel? && t.channel in op.allowed)
    || (op.Resubscribe? && op.c == d && t.Workspace? && t.workspace in op.workspaces)
  }

  /** The messages an operation puts on a connection's queue. */
  function QueuedBy(conns: Conns, op: Op, d: Uuid): seq<Queued> {
    var after := Apply(conns, op);
    if op.Drain? || op.Add? || d !in after || d !in conns || |after[d].queue| < |conns[d].queue| then []
    else after[d].queue[|conns[d].queue|..]
  }

  predicate SaysNothing(conns: Conns, op: Op, d: Uuid, t: Target) {
    forall q <- QueuedBy(conns, op, d) :: q.via != t
  }

  lemma OpIsSilent(conns: Conns, op: Op, d: Uuid, t: Target)
    requires IsPlace(t) && Unsubscribed(conns, d, t) && !Readmits(op, d, t)
    ensures Unsubscribed(Apply(conns, op), d, t) && SaysNothing(conns, op, d, t)
  {
    if op.Event? { PlanIsSilent(conns, op.a, Plan(op.e, op.p), op.sid, d, t); }
  }

  lemma {:induction false} SilentWhileOut(conns: Conns, ops: seq<Op>, d: Uuid, t: Target, i: nat)
    requires IsPlace(t) && Unsubscribed(conns, d, t) && i <= |ops|
    requires forall op <- ops :: !Readmits(op, d, t)
    ensures Unsubscribed(Run(conns, ops[..i]), d, t)
    ensures i < |ops| ==> SaysNothing(Run(conns, ops[..i]), ops[i], d, t)
  {
    if i > 0 {
      SilentWhileOut(conns, ops, d, t, i - 1);
      OpIsSilent(Run(conns, ops[..i - 1]), ops[i - 1], d, t);
      RunExtends(conns, ops, i - 1);
    }
    if i < |ops| { OpIsSilent(Run(conns, ops[..i]), ops[i], d, t); }
  }

  lemma RunExtends(conns: Conns, ops: seq<Op>, i: nat)
    requires i < |ops|
    ensures Run(conns, ops[..i + 1]) == Apply(Run(conns, ops[..i]), ops[i])
  {
    assert ops[..i + 1][..i] == ops[..i];
  }

  lemma RemovalUnsubscribes(conns: Conns, a: Audience, p: Payload, sid: Option<string>, d: Uuid)
    requires "user_id" in p.ids && "channel_id" in p.ids
    requires d in conns ==> conns[d].user == p.ids["user_id"]
    ensures Unsubscribed(Handle(conns, a, ChannelMemberRemoved, p, sid), d, Channel(p.ids["channel_id"]))
  {
    var u, ch := p.ids["user_id"], p.ids["channel_id"];
    var drop, notice := DropChannel(u, ch), Send(User(u), Frame("ChannelAccessRevoked", p));
    HasTwo(p, "user_id", "channel_id");
    assert Plan(ChannelMemberRemoved, p) == [drop, notice];
    TwoActions(conns, a, drop, notice, sid);
    var dropped := Perform(conns, a, drop, sid);
    assert Unsubscribed(dropped, d, Channel(ch));
    PerformIsSilent(dropped, a, notice, sid, d, Channel(ch));
  }

  lemma ExpulsionUnsubscribes(conns: Conns, a: Audience, p: Payload, sid: Option<string>, d: Uuid)
    requires "user_id" in p.ids && "workspace_id" in p.ids
    requires d in conns ==> conns[d].user == p.ids["user_id"]
    ensures Unsubscribed(Handle(conns, a, WorkspaceMemberRemoved, p, sid), d, Workspace(p.ids["workspace_id"]))
  {
    var u, ws := p.ids["user_id"], p.ids["workspace_id"];
    var drop := DropWorkspace(u, ws);
    HasTwo(p, "user_id", "workspace_id");
    var plan := Plan(WorkspaceMemberRemoved, p);
    assert plan[0] == drop;
    var dropped := Perform(conns, a, drop, sid);
    assert Unsubscribed(dropped, d, Workspace(ws));
    hide Plan, Perform;
    FirstAction(conns, a, plan, sid);
    PlanIsSilent(dropped, a, plan[1..], sid, d, Workspace(ws));
  }

  lemma {:induction false} FirstAction(conns: Conns, a: Audience, plan: seq<Action>, sid: Option<string>)
    requires plan != []
    ensures PerformAll(conns, a, plan, sid) == PerformAll(Perform(conns, a, plan[0], sid), a, plan[1..], sid)
  {
    hide Perform;
    var n := |plan| - 1;
    if n == 0 {
      assert plan[..0] == [] && plan[1..] == [];
    } else {
      FirstAction(conns, a, plan[..n], sid);
      assert plan[..n][1..] == plan[1..][..n - 1];
    }
  }

  lemma TwoActions(conns: Conns, a: Audience, x: Action, y: Action, sid: Option<string>)
    ensures PerformAll(conns, a, [x, y], sid) == Perform(Perform(conns, a, x, sid), a, y, sid)
  {
    assert [x, y][..1] == [x];
    OneAction(conns, a, x, sid);
  }

  /** From the moment a member's removal from a channel is processed, none of their
      connections is queued a frame routed by that channel, live or replayed,
      until a join that the membership check allowed on that very connection. */
  lemma RemovalSilencesChannel(
    conns: Conns, a: Audience, p: Payload, sid: Option<string>, ops: seq<Op>, d: Uuid, i: nat)
    requires "user_id" in p.ids && "channel_id" in p.ids && i <= |ops|
    requires d in conns ==> conns[d].user == p.ids["user_id"]
    requires forall op <- ops :: !(op.JoinAllowed? && op.c == d && p.ids["channel_id"] in op.allowed)
    ensures var ch := p.ids["channel_id"];
      var now := Run(Handle(conns, a, ChannelMemberRemoved, p, sid), ops[..i]);
      && (d in now ==> ch !in now[d].channels)
      && (i < |ops| ==> forall q <- QueuedBy(now, ops[i], d) :: q.via != Channel(ch))
  {
    RemovalUnsubscribes(conns, a, p, sid, d);
    SilentWhileOut(Handle(conns, a, ChannelMemberRemoved, p, sid), ops, d, Channel(p.ids["channel_id"]), i);
  }

  /** And so for a workspace, until that very connection subscribes to it again. */
  lemma RemovalSilencesWorkspace(
    conns: Conns, a: Audience, p: Payload, sid: Option<string>, ops: seq<Op>, d: Uuid, i: nat)
    requires "user_id" in p.ids && "workspace_id" in p.ids && i <= |ops|
    requires d in conns ==> conns[d].user == p.ids["user_id"]
    requires forall op <- ops :: !(op.Resubscribe? && op.c == d && p.ids["workspace_id"] in op.workspaces)
    ensures var ws := p.ids["workspace_id"];
      var now := Run(Handle(conns, a, WorkspaceMemberRemoved, p, sid), ops[..i]);
      && (d in now ==> ws !in now[d].workspaces)
      && (i < |ops| ==> forall q <- QueuedBy(now, ops[i], d) :: q.via != Workspace(ws))
  {
    ExpulsionUnsubscribes(conns, a, p, sid, d);
    SilentWhileOut(Handle(conns, a, WorkspaceMemberRemoved, p, sid), ops, d, Workspace(p.ids["workspace_id"]), i);
  }
}
