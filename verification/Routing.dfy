/**
 What the gateway does with an event: one routing table for live delivery and
 for replay, which only narrows the audience.
 */
module Routing {
  import opened Options
  import opened Registry

  const REVOKED_CLOSE_CODE := 4001

  datatype EventType =
    | MessageCreated | MessageUpdated | MessageDeleted | MessagePinned
    | ReactionAdded | ReactionRemoved
    | WorkspaceDeleted | WorkspaceRestored | WorkspaceEmojiChanged
    | NotificationPush | PresenceChanged | PresenceRecompute | TypingIndicator
    | ConversationCreated
    | HuddleMemberJoined | HuddleMemberLeft | HuddleMute | HuddleCamera | HuddleScreenshare
    | HuddleReaction | HuddleHand | HuddleTransport
    | HuddleRing | HuddleOffer | HuddleAnswer | HuddleIce
    | HuddleStarted | HuddleEnded
    | ChannelReadState | CommandResponse | LaterUpdated | ThreadReadState | ChannelUpdated
    | ChannelMemberRemoved | WorkspaceMemberRemoved | WorkspaceMemberJoined
    | ListUpserted | ListDeleted | ListColumnsChanged | ListViewsChanged
    | ListItemUpserted | ListItemDeleted | ListCommentUpserted | ListCommentDeleted
    | UserSuspended | SessionRevoked
    | ChannelMemberJoined | ChannelCreated | Unknown

  datatype Action =
    | Send(to: Target, frame: Frame)
    | DropChannel(user: Uuid, channel: Uuid)
    | DropWorkspace(user: Uuid, workspace: Uuid)
    | Disconnect(user: Uuid, except: Option<Uuid>)

  function Field(p: Payload, name: string): Option<Uuid> {
    if name in p.ids then Some(p.ids[name]) else None
  }

  function ListOf(p: Payload, name: string): seq<Uuid> {
    if name in p.lists then p.lists[name] else []
  }

  predicate Has(p: Payload, names: seq<string>) { forall n <- names :: n in p.ids }

  lemma HasFew(p: Payload)
    ensures Has(p, [])
  {
  }

  lemma HasOne(p: Payload, a: string)
    ensures Has(p, [a]) <==> a in p.ids
  {
    assert [a][0] == a;
  }

  lemma HasTwo(p: Payload, a: string, b: string)
    ensures Has(p, [a, b]) <==> a in p.ids && b in p.ids
  {
    assert [a, b][0] == a && [a, b][1] == b;
  }

  /** An action that stays within the audience it is performed for. */
  predicate Bound(action: Action) { !action.Disconnect? && (action.Send? ==> !action.to.MembersOf?) }

  predicate AllBound(plan: seq<Action>) { forall i :: 0 <= i < |plan| ==> Bound(plan[i]) }

  function ToChannel(p: Payload, needs: seq<string>, kind: string): (r: seq<Action>)
    ensures AllBound(r)
  {
    if Has(p, needs) && "channel_id" in p.ids
    then [Send(Channel(p.ids["channel_id"]), Frame(kind, p))] else []
  }

  function ToUser(p: Payload, needs: seq<string>, name: string, kind: string): (r: seq<Action>)
    ensures AllBound(r)
  {
    if Has(p, needs) && name in p.ids then [Send(User(p.ids[name]), Frame(kind, p))] else []
  }

  function ToWorkspace(p: Payload, kind: string): (r: seq<Action>)
    ensures AllBound(r)
  {
    if "workspace_id" in p.ids then [Send(Workspace(p.ids["workspace_id"]), Frame(kind, p))] else []
  }

  function ToHuddle(p: Payload, kind: string): (r: seq<Action>)
    ensures AllBound(r)
  {
    if p.typed && "huddle_id" in p.ids then [Send(Huddle(p.ids["huddle_id"]), Frame(kind, p))] else []
  }

  /** One frame per listed participant, in order. */
  function ToEach(users: seq<Uuid>, f: Frame): (r: seq<Action>)
    ensures AllBound(r)
  {
    seq(|users|, i requires 0 <= i < |users| => Send(User(users[i]), f))
  }

  function Plan(e: EventType, p: Payload): seq<Action> {
    match e
    case MessageCreated => ToChannel(p, [], "MessageNew")
    case MessageUpdated => ToChannel(p, [], "MessageUpdated")
    case MessageDeleted => ToChannel(p, ["message_id"], "MessageDeleted")
    case MessagePinned => ToChannel(p, ["message_id"], "MessagePinned")
    case ReactionAdded => ToChannel(p, ["message_id"], "ReactionAdded")
    case ReactionRemoved => ToChannel(p, ["message_id", "user_id"], "ReactionRemoved")
    case WorkspaceDeleted => ToWorkspace(p, "WorkspaceDeleted")
    case WorkspaceRestored =>
      if "workspace_id" in p.ids then [Send(Everybody, Frame("WorkspaceRestored", p))] else []
    case WorkspaceEmojiChanged => ToWorkspace(p, "WorkspaceEmojiChanged")
    case NotificationPush => ToUser(p, [], "user_id", "Notification")
    case PresenceChanged =>
      if "user_id" in p.ids && p.statusOk
      then [Send(MembersOf(Elems(ListOf(p, "workspace_ids"))), Frame("PresenceChanged", p))]
      else []
    case PresenceRecompute => []
    case TypingIndicator => ToChannel(p, ["user_id"], "TypingIndicator")
    case ConversationCreated =>
      if p.typed then ToEach(ListOf(p, "participant_ids"), Frame("ConversationCreated", p)) else []
    case HuddleMemberJoined => ToHuddle(p, "HuddleMemberJoined")
    case HuddleMemberLeft => ToHuddle(p, "HuddleMemberLeft")
    case HuddleMute => ToHuddle(p, "HuddleMute")
    case HuddleCamera => ToHuddle(p, "HuddleCamera")
    case HuddleScreenshare => ToHuddle(p, "HuddleScreenshare")
    case HuddleReaction => ToHuddle(p, "HuddleReaction")
    case HuddleHand => ToHuddle(p, "HuddleHand")
    case HuddleTransport => ToHuddle(p, "HuddleTransport")
    case HuddleRing => if p.quiet || !p.typed then [] else ToUser(p, [], "to_user_id", "HuddleRing")
    case HuddleOffer => if p.typed then ToUser(p, [], "to_user_id", "HuddleOffer") else []
    case HuddleAnswer => if p.typed then ToUser(p, [], "to_user_id", "HuddleAnswer") else []
    case HuddleIce => if p.typed then ToUser(p, [], "to_user_id", "HuddleIce") else []
    case HuddleStarted => AboutHuddle(p, "HuddleStarted")
    case HuddleEnded => AboutHuddle(p, "HuddleEnded")
    case ChannelReadState => ToUser(p, ["channel_id"], "user_id", "ChannelReadState")
    case CommandResponse => ToUser(p, ["channel_id"], "user_id", "CommandResponse")
    case LaterUpdated => ToUser(p, ["workspace_id"], "user_id", "LaterUpdated")
    case ThreadReadState => ToUser(p, ["root_message_id", "workspace_id"], "user_id", "ThreadReadState")
    case ChannelUpdated => ToChannel(p, ["workspace_id"], "ChannelUpdated")
    case ChannelMemberRemoved =>
      if Has(p, ["user_id", "channel_id"])
      then [DropChannel(p.ids["user_id"], p.ids["channel_id"]),
            Send(User(p.ids["user_id"]), Frame("ChannelAccessRevoked", p))]
      else []
    case WorkspaceMemberRemoved =>
      if Has(p, ["user_id", "workspace_id"])
      then [DropWorkspace(p.ids["user_id"], p.ids["workspace_id"]),
            Send(User(p.ids["user_id"]), Frame("WorkspaceAccessRevoked", p)),
            Send(Workspace(p.ids["workspace_id"]), Frame("WorkspaceMembersChanged", p))]
      else []
    case WorkspaceMemberJoined =>
      if Has(p, ["user_id", "workspace_id"])
      then [Send(User(p.ids["user_id"]), Frame("WorkspaceJoined", p)),
            Send(Workspace(p.ids["workspace_id"]), Frame("WorkspaceMembersChanged", p))]
      else []
    case ListUpserted => AboutList(p, "ListUpserted")
    case ListDeleted => AboutList(p, "ListDeleted")
    case ListColumnsChanged => AboutList(p, "ListColumnsChanged")
    case ListViewsChanged => AboutList(p, "ListViewsChanged")
    case ListItemUpserted => AboutList(p, "ListItemUpserted")
    case ListItemDeleted => AboutList(p, "ListItemDeleted")
    case ListCommentUpserted => AboutList(p, "ListCommentUpserted")
    case ListCommentDeleted => AboutList(p, "ListCommentDeleted")
    case UserSuspended =>
      if "user_id" in p.ids then [Disconnect(p.ids["user_id"], None)] else []
    case SessionRevoked =>
      if "user_id" in p.ids then [Disconnect(p.ids["user_id"], Field(p, "except_jti"))] else []
    case ChannelMemberJoined => []
    case ChannelCreated => []
    case Unknown => []
  }

  function AboutHuddle(p: Payload, kind: string): (r: seq<Action>)
    ensures AllBound(r)
  {
    if !p.typed then []
    else if "channel_id" in p.ids then ToChannel(p, [], kind)
    else ToUser(p, [], "initiator_id", kind) + ToUser(p, [], "dm_partner_id", kind)
  }

  function AboutList(p: Payload, kind: string): (r: seq<Action>)
    ensures AllBound(r)
  {
    if !p.typed then []
    else if "channel_id" in p.ids then ToChannel(p, [], kind)
    else ToUser(p, [], "owner_id", kind)
  }

  /** The events the per-workspace log carries. */
  predicate Durable(e: EventType) {
    e in {HuddleMemberJoined, HuddleMemberLeft, HuddleRing, ChannelMemberJoined, ChannelReadState,
          ChannelCreated, ChannelUpdated,
          MessageCreated, MessageUpdated, MessageDeleted, MessagePinned, ReactionAdded, ReactionRemoved,
          WorkspaceDeleted, WorkspaceRestored, WorkspaceEmojiChanged, WorkspaceMemberRemoved,
          WorkspaceMemberJoined, ConversationCreated, ListUpserted, ListDeleted, ListColumnsChanged,
          ListViewsChanged, ListItemUpserted, ListItemDeleted, ListCommentUpserted, ListCommentDeleted}
  }

  /** A presence change goes to every member, whoever the audience is. */
  function Audienced(a: Audience, t: Target): Audience { if t.MembersOf? then Everyone else a }

  function Perform(conns: Conns, a: Audience, action: Action, sid: Option<string>): Conns {
    match action
    case Send(to, frame) =>
      Deliver(conns, Targets(conns, Audienced(a, to), to), Queued(Text(frame, sid), to))
    case DropChannel(u, ch) => Changed(conns, ConnsOf(conns, u), WithoutChannel(ch))
    case DropWorkspace(u, ws) => Changed(conns, ConnsOf(conns, u), WithoutWorkspace(ws))
    case Disconnect(u, except) =>
      Changed(conns, ConnsOf(conns, u), Closing(except, Queued(Close(REVOKED_CLOSE_CODE), User(u))))
  }

  function PerformAll(conns: Conns, a: Audience, plan: seq<Action>, sid: Option<string>): Conns {
    if plan == [] then conns
    else Perform(PerformAll(conns, a, plan[..|plan| - 1], sid), a, plan[|plan| - 1], sid)
  }

  function Handle(conns: Conns, a: Audience, e: EventType, p: Payload, sid: Option<string>): Conns {
    PerformAll(conns, a, Plan(e, p), sid)
  }

  method PerformAction(cm: ConnectionManager, a: Audience, action: Action, sid: Option<string>)
    requires cm.Valid()
    modifies cm
    ensures cm.Valid() && cm.connections == Perform(old(cm.connections), a, action, sid)
  {
    match action
    case Send(to, frame) =>
      var q := Queued(Text(frame, sid), to);
      if to.User? {
        cm.SendToUser(a, to.user, q);
      } else {
        cm.FanOutTo(Audienced(a, to), to, q);
      }
    case DropChannel(u, ch) => cm.ChangeForUser(u, WithoutChannel(ch));
    case DropWorkspace(u, ws) => cm.ChangeForUser(u, WithoutWorkspace(ws));
    case Disconnect(u, except) =>
      cm.ChangeForUser(u, Closing(except, Queued(Close(REVOKED_CLOSE_CODE), User(u))));
  }

  method PerformPlan(cm: ConnectionManager, a: Audience, plan: seq<Action>, sid: Option<string>)
    requires cm.Valid()
    modifies cm
    ensures cm.Valid() && cm.connections == PerformAll(old(cm.connections), a, plan, sid)
  {
    hide Perform, IndexOf;
    var i := 0;
    while i < |plan|
      invariant i <= |plan|
      invariant cm.Valid() && cm.connections == PerformAll(old(cm.connections), a, plan[..i], sid)
    {
      assert plan[..i + 1][..i] == plan[..i];
      PerformAction(cm, a, plan[i], sid);
      i := i + 1;
    }
    assert plan[..i] == plan;
  }

  method HandleEventFor(
    cm: ConnectionManager, a: Audience, e: EventType, p: Payload, sid: Option<string>)
    requires cm.Valid()
    modifies cm
    ensures cm.Valid() && cm.connections == Handle(old(cm.connections), a, e, p, sid)
  {
    PerformPlan(cm, a, Plan(e, p), sid);
  }

  // ---- Replay against live ----

  function Lookup(conns: Conns, c: Uuid): Option<Conn> { if c in conns then Some(conns[c]) else None }

  /** The events whose handling stays within the audience. */
  predicate Respects(e: EventType) { e !in {PresenceChanged, UserSuspended, SessionRevoked} }

  predicate SameQueues(before: Conns, after: Conns, but: Uuid) {
    forall d :: d in before && d != but ==> d in after && after[d].queue == before[d].queue
  }

  lemma PerformIsLocal(live: Conns, replayed: Conns, c: Uuid, action: Action, sid: Option<string>)
    requires Lookup(live, c) == Lookup(replayed, c)
    ensures Lookup(Perform(live, Everyone, action, sid), c)
         == Lookup(Perform(replayed, Only(c), action, sid), c)
    ensures Bound(action) ==> SameQueues(replayed, Perform(replayed, Only(c), action, sid), c)
  {
  }

  lemma {:induction false} PlanIsLocal(
    live: Conns, replayed: Conns, c: Uuid, plan: seq<Action>, sid: Option<string>)
    requires Lookup(live, c) == Lookup(replayed, c)
    ensures Lookup(PerformAll(live, Everyone, plan, sid), c)
         == Lookup(PerformAll(replayed, Only(c), plan, sid), c)
    ensures AllBound(plan) ==>
              SameQueues(replayed, PerformAll(replayed, Only(c), plan, sid), c)
  {
    if plan != [] {
      var before := plan[..|plan| - 1];
      PlanIsLocal(live, replayed, c, before, sid);
      PerformIsLocal(PerformAll(live, Everyone, before, sid), PerformAll(replayed, Only(c), before, sid),
                     c, plan[|plan| - 1], sid);
    }
  }

  lemma PlanIsBound(e: EventType, p: Payload)
    requires Respects(e)
    ensures AllBound(Plan(e, p))
  {
    hide Has, ToChannel, ToUser, ToWorkspace, ToHuddle, ToEach, AboutHuddle, AboutList;
    match e
    case ChannelMemberRemoved | WorkspaceMemberRemoved | WorkspaceMemberJoined =>
    case _ =>
  }

  /** Handled for one connection, the event changes nobody else's queue. */
  ghost predicate KeepsToAudience(e: EventType) {
    forall conns: Conns, c: Uuid, p: Payload, sid: Option<string> ::
      SameQueues(conns, Handle(conns, Only(c), e, p, sid), c)
  }

  lemma OneAction(conns: Conns, a: Audience, x: Action, sid: Option<string>)
    ensures PerformAll(conns, a, [x], sid) == Perform(conns, a, x, sid)
  {
    assert [x][..0] == [];
  }

  const ALL_FIELDS := Payload(map["user_id" := 0], map["workspace_ids" := [0]], false, true, true, 0)
  const BYSTANDER := Conn(0, None, [], false, {0}, {}, {})

  /** The one thing such an event does. */
  function Reaching(e: EventType): Action {
    if e == PresenceChanged then Send(MembersOf(Elems([0])), Frame("PresenceChanged", ALL_FIELDS))
    else Disconnect(0, None)
  }

  lemma ReachingPlan(e: EventType)
    requires !Respects(e)
    ensures Plan(e, ALL_FIELDS) == [Reaching(e)]
  {
    hide Has, ToChannel, ToUser, ToWorkspace, ToHuddle, ToEach, AboutHuddle, AboutList;
  }

  lemma ReachesBystander(e: EventType)
    ensures var after := Perform(map[0 := BYSTANDER], Only(1), Reaching(e), None);
      0 in after && |after[0].queue| == 1
  {
    var conns: Conns := map[0 := BYSTANDER];
    if e == PresenceChanged {
      var to := MembersOf(Elems([0]));
      assert 0 in [0] && 0 in {0} * Elems([0]);
      assert Targets(conns, Everyone, to) == {0};
    } else {
      assert ConnsOf(conns, 0) == {0};
    }
  }

  /** Somebody is told of each of the three, although the audience is somebody else. */
  lemma ReachesBeyond(e: EventType)
    requires !Respects(e)
    ensures !KeepsToAudience(e)
  {
    hide Plan, Perform, Reaching;
    var conns: Conns := map[0 := BYSTANDER];
    ReachingPlan(e);
    OneAction(conns, Only(1), Reaching(e), None);
    ReachesBystander(e);
    assert !SameQueues(conns, Handle(conns, Only(1), e, ALL_FIELDS, None), 1);
  }

  /** Exactly three events reach beyond the audience they are handled for. */
  lemma RespectsIff(e: EventType)
    ensures Respects(e) <==> KeepsToAudience(e)
  {
    if Respects(e) {
      forall conns: Conns, c: Uuid, p: Payload, sid: Option<string>
        ensures SameQueues(conns, Handle(conns, Only(c), e, p, sid), c)
      {
        hide Plan, PerformAll;
        PlanIsBound(e, p);
        PlanIsLocal(conns, conns, c, Plan(e, p), sid);
      }
    } else {
      ReachesBeyond(e);
    }
  }

  /** Replaying an event hands the asking connection exactly what the live path
      would have handed it, overflow included; and for every event the log
      carries, no other queue changes. */
  lemma ReplayRefinesLive(conns: Conns, c: Uuid, e: EventType, p: Payload, sid: Option<string>)
    ensures Lookup(Handle(conns, Everyone, e, p, sid), c) == Lookup(Handle(conns, Only(c), e, p, sid), c)
    ensures Respects(e) ==> SameQueues(conns, Handle(conns, Only(c), e, p, sid), c)
    ensures Durable(e) ==> Respects(e)
  {
    PlanIsLocal(conns, conns, c, Plan(e, p), sid);
    if Respects(e) { PlanIsBound(e, p); }
  }
}
