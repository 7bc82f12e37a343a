/**
 Who is told of each event, seen from one connection: what it hears and which
 subscriptions it keeps.
 */
module EventReach {
  import opened Options
  import opened Registry
  import opened Routing
  import ReplayQueue

  // ---- What a connection hears ----

  function Hear(p: Payload, kind: string, via: Target, sid: Option<string>): seq<Queued> {
    [Queued(Text(Frame(kind, p), sid), via)]
  }

  /** Heard by those subscribed to the channel the payload names. */
  function OnChannel(conn: Conn, p: Payload, kind: string, sid: Option<string>): seq<Queued> {
    if "channel_id" in p.ids && p.ids["channel_id"] in conn.channels
    then Hear(p, kind, Channel(p.ids["channel_id"]), sid) else []
  }

  function InWorkspace(conn: Conn, p: Payload, kind: string, sid: Option<string>): seq<Queued> {
    if "workspace_id" in p.ids && p.ids["workspace_id"] in conn.workspaces
    then Hear(p, kind, Workspace(p.ids["workspace_id"]), sid) else []
  }

  function InHuddle(conn: Conn, p: Payload, kind: string, sid: Option<string>): seq<Queued> {
    if p.typed && "huddle_id" in p.ids && p.ids["huddle_id"] in conn.huddles
    then Hear(p, kind, Huddle(p.ids["huddle_id"]), sid) else []
  }

  /** Heard by the person a field of the payload names. */
  function AsPerson(conn: Conn, p: Payload, name: string, kind: string, sid: Option<string>): seq<Queued> {
    if name in p.ids && p.ids[name] == conn.user then Hear(p, kind, User(conn.user), sid) else []
  }

  /** Once for each time the list names the person. */
  function AsListed(conn: Conn, p: Payload, users: seq<Uuid>, kind: string, sid: Option<string>): seq<Queued> {
    if users == [] then []
    else AsListed(conn, p, users[..|users| - 1], kind, sid)
         + if users[|users| - 1] == conn.user then Hear(p, kind, User(conn.user), sid) else []
  }

  function Hears(conn: Conn, e: EventType, p: Payload, sid: Option<string>): seq<Queued> {
    match e
    case MessageCreated => OnChannel(conn, p, "MessageNew", sid)
    case MessageUpdated => OnChannel(conn, p, "MessageUpdated", sid)
    case MessageDeleted => if "message_id" in p.ids then OnChannel(conn, p, "MessageDeleted", sid) else []
    case MessagePinned => if "message_id" in p.ids then OnChannel(conn, p, "MessagePinned", sid) else []
    case ReactionAdded => if "message_id" in p.ids then OnChannel(conn, p, "ReactionAdded", sid) else []
    case ReactionRemoved =>
      if "message_id" in p.ids && "user_id" in p.ids then OnChannel(conn, p, "ReactionRemoved", sid) else []
    case TypingIndicator => if "user_id" in p.ids then OnChannel(conn, p, "TypingIndicator", sid) else []
    case ChannelUpdated => if "workspace_id" in p.ids then OnChannel(conn, p, "ChannelUpdated", sid) else []
    case WorkspaceDeleted => InWorkspace(conn, p, "WorkspaceDeleted", sid)
    case WorkspaceEmojiChanged => InWorkspace(conn, p, "WorkspaceEmojiChanged", sid)
    case WorkspaceRestored => if "workspace_id" in p.ids then Hear(p, "WorkspaceRestored", Everybody, sid) else []
    case NotificationPush => AsPerson(conn, p, "user_id", "Notification", sid)
    case ConversationCreated =>
      if p.typed then AsListed(conn, p, ListOf(p, "participant_ids"), "ConversationCreated", sid) else []
    case HuddleMemberJoined => InHuddle(conn, p, "HuddleMemberJoined", sid)
    case HuddleMemberLeft => InHuddle(conn, p, "HuddleMemberLeft", sid)
    case HuddleMute => InHuddle(conn, p, "HuddleMute", sid)
    case HuddleCamera => InHuddle(conn, p, "HuddleCamera", sid)
    case HuddleScreenshare => InHuddle(conn, p, "HuddleScreenshare", sid)
    case HuddleReaction => InHuddle(conn, p, "HuddleReaction", sid)
    case HuddleHand => InHuddle(conn, p, "HuddleHand", sid)
    case HuddleTransport => InHuddle(conn, p, "HuddleTransport", sid)
    case HuddleRing => if p.typed && !p.quiet then AsPerson(conn, p, "to_user_id", "HuddleRing", sid) else []
    case HuddleOffer => if p.typed then AsPerson(conn, p, "to_user_id", "HuddleOffer", sid) else []
    case HuddleAnswer => if p.typed then AsPerson(conn, p, "to_user_id", "HuddleAnswer", sid) else []
    case HuddleIce => if p.typed then AsPerson(conn, p, "to_user_id", "HuddleIce", sid) else []
    case HuddleStarted => AboutCall(conn, p, "HuddleStarted", sid)
    case HuddleEnded => AboutCall(conn, p, "HuddleEnded", sid)
    case ChannelReadState =>
      if "channel_id" in p.ids then AsPerson(conn, p, "user_id", "ChannelReadState", sid) else []
    case CommandResponse =>
      if "channel_id" in p.ids then AsPerson(conn, p, "user_id", "CommandResponse", sid) else []
    case LaterUpdated => if "workspace_id" in p.ids then AsPerson(conn, p, "user_id", "LaterUpdated", sid) else []
    case ThreadReadState =>
      if "root_message_id" in p.ids && "workspace_id" in p.ids
      then AsPerson(conn, p, "user_id", "ThreadReadState", sid) else []
    case ChannelMemberRemoved =>
      if "channel_id" in p.ids then AsPerson(conn, p, "user_id", "ChannelAccessRevoked", sid) else []
    case WorkspaceMemberRemoved =>
      if "user_id" !in p.ids || "workspace_id" !in p.ids then []
      else if p.ids["user_id"] == conn.user then AsPerson(conn, p, "user_id", "WorkspaceAccessRevoked", sid)
      else InWorkspace(conn, p, "WorkspaceMembersChanged", sid)
    case WorkspaceMemberJoined =>
      if "user_id" !in p.ids || "workspace_id" !in p.ids then []
      else AsPerson(conn, p, "user_id", "WorkspaceJoined", sid)
           + InWorkspace(conn, p, "WorkspaceMembersChanged", sid)
    case ListUpserted => AboutListItem(conn, p, "ListUpserted", sid)
    case ListDeleted => AboutListItem(conn, p, "ListDeleted", sid)
    case ListColumnsChanged => AboutListItem(conn, p, "ListColumnsChanged", sid)
    case ListViewsChanged => AboutListItem(conn, p, "ListViewsChanged", sid)
    case ListItemUpserted => AboutListItem(conn, p, "ListItemUpserted", sid)
    case ListItemDeleted => AboutListItem(conn, p, "ListItemDeleted", sid)
    case ListCommentUpserted => AboutListItem(conn, p, "ListCommentUpserted", sid)
    case ListCommentDeleted => AboutListItem(conn, p, "ListCommentDeleted", sid)
    case _ => []
  }

  /** In a channel its members hear; otherwise the two who call. */
  function AboutCall(conn: Conn, p: Payload, kind: string, sid: Option<string>): seq<Queued> {
    if !p.typed then []
    else if "channel_id" in p.ids then OnChannel(conn, p, kind, sid)
    else AsPerson(conn, p, "initiator_id", kind, sid) + AsPerson(conn, p, "dm_partner_id", kind, sid)
  }

  function AboutListItem(conn: Conn, p: Payload, kind: string, sid: Option<string>): seq<Queued> {
    if !p.typed then []
    else if "channel_id" in p.ids then OnChannel(conn, p, kind, sid)
    else AsPerson(conn, p, "owner_id", kind, sid)
  }

  /** Only a removal changes subscriptions: the removed person's, to the one place. */
  function Keeps(conn: Conn, e: EventType, p: Payload): Conn {
    if "user_id" !in p.ids || p.ids["user_id"] != conn.user then conn
    else if e == ChannelMemberRemoved && "channel_id" in p.ids
    then conn.(channels := conn.channels - {p.ids["channel_id"]})
    else if e == WorkspaceMemberRemoved && "workspace_id" in p.ids
    then conn.(workspaces := conn.workspaces - {p.ids["workspace_id"]})
    else conn
  }

  // ---- The plan says the same ----

  /** What a plan means for one connection. */
  predicate Means(conn: Conn, c: Uuid, plan: seq<Action>, sid: Option<string>, frames: seq<Queued>, kept: Conn) {
    ReplayQueue.Addressed(conn, c, plan, sid) == frames && ReplayQueue.TunedBy(conn, plan) == kept
  }

  lemma NoneMeans(conn: Conn, c: Uuid, sid: Option<string>)
    ensures Means(conn, c, [], sid, [], conn)
  {
  }

  lemma OneMeans(conn: Conn, c: Uuid, x: Action, sid: Option<string>)
    requires x.Send?
    ensures Means(conn, c, [x], sid,
                  if Matches(x.to, c, conn) then [Queued(Text(x.frame, sid), x.to)] else [], conn)
  {
    assert [x][..0] == [];
  }

  lemma {:induction false} JoinMeans(conn: Conn, c: Uuid, x: seq<Action>, y: seq<Action>, sid: Option<string>)
    ensures ReplayQueue.TunedBy(conn, x + y) == ReplayQueue.TunedBy(ReplayQueue.TunedBy(conn, x), y)
    ensures ReplayQueue.Addressed(conn, c, x + y, sid)
         == ReplayQueue.Addressed(conn, c, x, sid)
            + ReplayQueue.Addressed(ReplayQueue.TunedBy(conn, x), c, y, sid)
  {
    hide ReplayQueue.Tuned, ReplayQueue.IsFor;
    if y == [] {
      assert x + y == x;
      assert ReplayQueue.Addressed(conn, c, x, sid) + [] == ReplayQueue.Addressed(conn, c, x, sid);
    } else {
      var n := |y| - 1;
      JoinMeans(conn, c, x, y[..n], sid);
      assert (x + y)[..|x + y| - 1] == x + y[..n] && (x + y)[|x + y| - 1] == y[n];
    }
  }

  lemma ToChannelMeans(conn: Conn, c: Uuid, p: Payload, needs: seq<string>, kind: string, sid: Option<string>)
    ensures Means(conn, c, ToChannel(p, needs, kind), sid,
                  if Has(p, needs) then OnChannel(conn, p, kind, sid) else [], conn)
  {
    hide Has;
    NoneMeans(conn, c, sid);
    if "channel_id" in p.ids { OneMeans(conn, c, Send(Channel(p.ids["channel_id"]), Frame(kind, p)), sid); }
  }

  lemma ToUserMeans(
    conn: Conn, c: Uuid, p: Payload, needs: seq<string>, name: string, kind: string, sid: Option<string>)
    ensures Means(conn, c, ToUser(p, needs, name, kind), sid,
                  if Has(p, needs) then AsPerson(conn, p, name, kind, sid) else [], conn)
  {
    hide Has;
    NoneMeans(conn, c, sid);
    if name in p.ids { OneMeans(conn, c, Send(User(p.ids[name]), Frame(kind, p)), sid); }
  }

  lemma ToWorkspaceMeans(conn: Conn, c: Uuid, p: Payload, kind: string, sid: Option<string>)
    ensures Means(conn, c, ToWorkspace(p, kind), sid, InWorkspace(conn, p, kind, sid), conn)
  {
    NoneMeans(conn, c, sid);
    if "workspace_id" in p.ids { OneMeans(conn, c, Send(Workspace(p.ids["workspace_id"]), Frame(kind, p)), sid); }
  }

  lemma ToHuddleMeans(conn: Conn, c: Uuid, p: Payload, kind: string, sid: Option<string>)
    ensures Means(conn, c, ToHuddle(p, kind), sid, InHuddle(conn, p, kind, sid), conn)
  {
    NoneMeans(conn, c, sid);
    if "huddle_id" in p.ids { OneMeans(conn, c, Send(Huddle(p.ids["huddle_id"]), Frame(kind, p)), sid); }
  }

  lemma {:induction false} ToEachMeans(
    conn: Conn, c: Uuid, p: Payload, users: seq<Uuid>, kind: string, sid: Option<string>)
    ensures Means(conn, c, ToEach(users, Frame(kind, p)), sid, AsListed(conn, p, users, kind, sid), conn)
  {
    if users == [] {
      NoneMeans(conn, c, sid);
    } else {
      hide ReplayQueue.Addressed, ReplayQueue.TunedBy;
      var n := |users| - 1;
      var init, last := ToEach(users[..n], Frame(kind, p)), Send(User(users[n]), Frame(kind, p));
      ToEachMeans(conn, c, p, users[..n], kind, sid);
      OneMeans(conn, c, last, sid);
      JoinMeans(conn, c, init, [last], sid);
      assert ToEach(users, Frame(kind, p)) == init + [last];
    }
  }

  lemma BothMean(
    conn: Conn, c: Uuid, x: seq<Action>, y: seq<Action>, sid: Option<string>, f: seq<Queued>, g: seq<Queued>)
    requires Means(conn, c, x, sid, f, conn) && Means(conn, c, y, sid, g, conn)
    ensures Means(conn, c, x + y, sid, f + g, conn)
  {
    JoinMeans(conn, c, x, y, sid);
  }

  lemma AboutHuddleMeans(conn: Conn, c: Uuid, p: Payload, kind: string, sid: Option<string>)
    ensures Means(conn, c, AboutHuddle(p, kind), sid, AboutCall(conn, p, kind, sid), conn)
  {
    NoneMeans(conn, c, sid);
    HasFew(p);
    ToChannelMeans(conn, c, p, [], kind, sid);
    ToUserMeans(conn, c, p, [], "initiator_id", kind, sid);
    ToUserMeans(conn, c, p, [], "dm_partner_id", kind, sid);
    hide Means, ToChannel, ToUser, Has, OnChannel, AsPerson;
    BothMean(conn, c, ToUser(p, [], "initiator_id", kind), ToUser(p, [], "dm_partner_id", kind), sid,
             AsPerson(conn, p, "initiator_id", kind, sid), AsPerson(conn, p, "dm_partner_id", kind, sid));
  }

  lemma AboutListMeans(conn: Conn, c: Uuid, p: Payload, kind: string, sid: Option<string>)
    ensures Means(conn, c, AboutList(p, kind), sid, AboutListItem(conn, p, kind, sid), conn)
  {
    NoneMeans(conn, c, sid);
    HasFew(p);
    ToChannelMeans(conn, c, p, [], kind, sid);
    ToUserMeans(conn, c, p, [], "owner_id", kind, sid);
    hide Means, ToChannel, ToUser, Has, OnChannel, AsPerson;
  }

  lemma ChannelEventMeans(conn: Conn, c: Uuid, e: EventType, p: Payload, sid: Option<string>)
    requires e in {MessageCreated, MessageUpdated, MessageDeleted, MessagePinned, ReactionAdded,
                  ReactionRemoved, TypingIndicator, ChannelUpdated}
    ensures Means(conn, c, Plan(e, p), sid, Hears(conn, e, p, sid), Keeps(conn, e, p))
  {
    hide Means, Has, ToChannel, ToUser, ToWorkspace, ToHuddle, ToEach, AboutHuddle, AboutList,
      OnChannel, InWorkspace, InHuddle, AsPerson, AsListed, AboutCall, AboutListItem;
    match e {
      case MessageCreated =>
        HasFew(p);
        ToChannelMeans(conn, c, p, [], "MessageNew", sid);
      case MessageUpdated =>
        HasFew(p);
        ToChannelMeans(conn, c, p, [], "MessageUpdated", sid);
      case MessageDeleted =>
        HasOne(p, "message_id");
        ToChannelMeans(conn, c, p, ["message_id"], "MessageDeleted", sid);
      case MessagePinned =>
        HasOne(p, "message_id");
        ToChannelMeans(conn, c, p, ["message_id"], "MessagePinned", sid);
      case ReactionAdded =>
        HasOne(p, "message_id");
        ToChannelMeans(conn, c, p, ["message_id"], "ReactionAdded", sid);
      case ReactionRemoved =>
        HasTwo(p, "message_id", "user_id");
        ToChannelMeans(conn, c, p, ["message_id", "user_id"], "ReactionRemoved", sid);
      case TypingIndicator =>
        HasOne(p, "user_id");
        ToChannelMeans(conn, c, p, ["user_id"], "TypingIndicator", sid);
      case ChannelUpdated =>
        HasOne(p, "workspace_id");
        ToChannelMeans(conn, c, p, ["workspace_id"], "ChannelUpdated", sid);
    }
  }

  lemma ReaderEventMeans(conn: Conn, c: Uuid, e: EventType, p: Payload, sid: Option<string>)
    requires e in {NotificationPush, ChannelReadState, CommandResponse, LaterUpdated, ThreadReadState}
    ensures Means(conn, c, Plan(e, p), sid, Hears(conn, e, p, sid), Keeps(conn, e, p))
  {
    hide Means, Has, ToChannel, ToUser, ToWorkspace, ToHuddle, ToEach, AboutHuddle, AboutList,
      OnChannel, InWorkspace, InHuddle, AsPerson, AsListed, AboutCall, AboutListItem;
    NoneMeans(conn, c, sid);
    match e {
      case NotificationPush =>
        HasFew(p);
        ToUserMeans(conn, c, p, [], "user_id", "Notification", sid);
      case ChannelReadState =>
        HasOne(p, "channel_id");
        ToUserMeans(conn, c, p, ["channel_id"], "user_id", "ChannelReadState", sid);
      case CommandResponse =>
        HasOne(p, "channel_id");
        ToUserMeans(conn, c, p, ["channel_id"], "user_id", "CommandResponse", sid);
      case LaterUpdated =>
        HasOne(p, "workspace_id");
        ToUserMeans(conn, c, p, ["workspace_id"], "user_id", "LaterUpdated", sid);
      case ThreadReadState =>
        HasTwo(p, "root_message_id", "workspace_id");
        ToUserMeans(conn, c, p, ["root_message_id", "workspace_id"], "user_id", "ThreadReadState", sid);
    }
  }

  lemma CallEventMeans(conn: Conn, c: Uuid, e: EventType, p: Payload, sid: Option<string>)
    requires e in {HuddleRing, HuddleOffer, HuddleAnswer, HuddleIce}
    ensures Means(conn, c, Plan(e, p), sid, Hears(conn, e, p, sid), Keeps(conn, e, p))
  {
    hide Means, Has, ToChannel, ToUser, ToWorkspace, ToHuddle, ToEach, AboutHuddle, AboutList,
      OnChannel, InWorkspace, InHuddle, AsPerson, AsListed, AboutCall, AboutListItem;
    NoneMeans(conn, c, sid);
    match e {
      case HuddleRing =>
        HasFew(p);
        ToUserMeans(conn, c, p, [], "to_user_id", "HuddleRing", sid);
      case HuddleOffer =>
        HasFew(p);
        ToUserMeans(conn, c, p, [], "to_user_id", "HuddleOffer", sid);
      case HuddleAnswer =>
        HasFew(p);
        ToUserMeans(conn, c, p, [], "to_user_id", "HuddleAnswer", sid);
      case HuddleIce =>
        HasFew(p);
        ToUserMeans(conn, c, p, [], "to_user_id", "HuddleIce", sid);
    }
  }

  lemma PresentEventMeans(conn: Conn, c: Uuid, e: EventType, p: Payload, sid: Option<string>)
    requires e in {HuddleMemberJoined, HuddleMemberLeft, HuddleMute, HuddleCamera}
    ensures Means(conn, c, Plan(e, p), sid, Hears(conn, e, p, sid), Keeps(conn, e, p))
  {
    hide Means, Has, ToChannel, ToUser, ToWorkspace, ToHuddle, ToEach, AboutHuddle, AboutList,
      OnChannel, InWorkspace, InHuddle, AsPerson, AsListed, AboutCall, AboutListItem;
    match e {
      case HuddleMemberJoined => ToHuddleMeans(conn, c, p, "HuddleMemberJoined", sid);
      case HuddleMemberLeft => ToHuddleMeans(conn, c, p, "HuddleMemberLeft", sid);
      case HuddleMute => ToHuddleMeans(conn, c, p, "HuddleMute", sid);
      case HuddleCamera => ToHuddleMeans(conn, c, p, "HuddleCamera", sid);
    }
  }

  lemma GestureEventMeans(conn: Conn, c: Uuid, e: EventType, p: Payload, sid: Option<string>)
    requires e in {HuddleScreenshare, HuddleReaction, HuddleHand, HuddleTransport}
    ensures Means(conn, c, Plan(e, p), sid, Hears(conn, e, p, sid), Keeps(conn, e, p))
  {
    hide Means, Has, ToChannel, ToUser, ToWorkspace, ToHuddle, ToEach, AboutHuddle, AboutList,
      OnChannel, InWorkspace, InHuddle, AsPerson, AsListed, AboutCall, AboutListItem;
    match e {
      case HuddleScreenshare => ToHuddleMeans(conn, c, p, "HuddleScreenshare", sid);
      case HuddleReaction => ToHuddleMeans(conn, c, p, "HuddleReaction", sid);
      case HuddleHand => ToHuddleMeans(conn, c, p, "HuddleHand", sid);
      case HuddleTransport => ToHuddleMeans(conn, c, p, "HuddleTransport", sid);
    }
  }

  lemma ListEventMeans(conn: Conn, c: Uuid, e: EventType, p: Payload, sid: Option<string>)
    requires e in {ListUpserted, ListDeleted, ListColumnsChanged, ListViewsChanged}
    ensures Means(conn, c, Plan(e, p), sid, Hears(conn, e, p, sid), Keeps(conn, e, p))
  {
    hide Means, Has, ToChannel, ToUser, ToWorkspace, ToHuddle, ToEach, AboutHuddle, AboutList,
      OnChannel, InWorkspace, InHuddle, AsPerson, AsListed, AboutCall, AboutListItem;
    match e {
      case ListUpserted => AboutListMeans(conn, c, p, "ListUpserted", sid);
      case ListDeleted => AboutListMeans(conn, c, p, "ListDeleted", sid);
      case ListColumnsChanged => AboutListMeans(conn, c, p, "ListColumnsChanged", sid);
      case ListViewsChanged => AboutListMeans(conn, c, p, "ListViewsChanged", sid);
    }
  }

  lemma ListItemEventMeans(conn: Conn, c: Uuid, e: EventType, p: Payload, sid: Option<string>)
    requires e in {ListItemUpserted, ListItemDeleted, ListCommentUpserted, ListCommentDeleted}
    ensures Means(conn, c, Plan(e, p), sid, Hears(conn, e, p, sid), Keeps(conn, e, p))
  {
    hide Means, Has, ToChannel, ToUser, ToWorkspace, ToHuddle, ToEach, AboutHuddle, AboutList,
      OnChannel, InWorkspace, InHuddle, AsPerson, AsListed, AboutCall, AboutListItem;
    match e {
      case ListItemUpserted => AboutListMeans(conn, c, p, "ListItemUpserted", sid);
      case ListItemDeleted => AboutListMeans(conn, c, p, "ListItemDeleted", sid);
      case ListCommentUpserted => AboutListMeans(conn, c, p, "ListCommentUpserted", sid);
      case ListCommentDeleted => AboutListMeans(conn, c, p, "ListCommentDeleted", sid);
    }
  }

  lemma CallSpanMeans(conn: Conn, c: Uuid, e: EventType, p: Payload, sid: Option<string>)
    requires e in {HuddleStarted, HuddleEnded}
    ensures Means(conn, c, Plan(e, p), sid, Hears(conn, e, p, sid), Keeps(conn, e, p))
  {
    hide Means, Has, ToChannel, ToUser, ToWorkspace, ToHuddle, ToEach, AboutHuddle, AboutList,
      OnChannel, InWorkspace, InHuddle, AsPerson, AsListed, AboutCall, AboutListItem;
    match e {
      case HuddleStarted => AboutHuddleMeans(conn, c, p, "HuddleStarted", sid);
      case HuddleEnded => AboutHuddleMeans(conn, c, p, "HuddleEnded", sid);
    }
  }

  lemma WorkspaceEventMeans(conn: Conn, c: Uuid, e: EventType, p: Payload, sid: Option<string>)
    requires e in {WorkspaceDeleted, WorkspaceEmojiChanged, WorkspaceRestored, ConversationCreated}
    ensures Means(conn, c, Plan(e, p), sid, Hears(conn, e, p, sid), Keeps(conn, e, p))
  {
    hide Means, Has, ToChannel, ToUser, ToWorkspace, ToHuddle, ToEach, AboutHuddle, AboutList,
      OnChannel, InWorkspace, InHuddle, AsPerson, AsListed, AboutCall, AboutListItem;
    NoneMeans(conn, c, sid);
    match e {
      case WorkspaceDeleted => ToWorkspaceMeans(conn, c, p, "WorkspaceDeleted", sid);
      case WorkspaceEmojiChanged => ToWorkspaceMeans(conn, c, p, "WorkspaceEmojiChanged", sid);
      case WorkspaceRestored => OneMeans(conn, c, Send(Everybody, Frame("WorkspaceRestored", p)), sid);
      case ConversationCreated => ToEachMeans(conn, c, p, ListOf(p, "participant_ids"), "ConversationCreated", sid);
    }
  }

  // ---- Joining and leaving ----

  lemma DropMeans(conn: Conn, c: Uuid, x: Action, sid: Option<string>)
    requires x.DropChannel? || x.DropWorkspace?
    ensures Means(conn, c, [x], sid, [], ReplayQueue.Tuned(conn, x))
  {
    assert [x][..0] == [];
  }

  lemma ThenMeans(
    conn: Conn, c: Uuid, x: seq<Action>, y: seq<Action>, sid: Option<string>,
    mid: Conn, f: seq<Queued>, g: seq<Queued>)
    requires Means(conn, c, x, sid, f, mid) && Means(mid, c, y, sid, g, mid)
    ensures Means(conn, c, x + y, sid, f + g, mid)
  {
    JoinMeans(conn, c, x, y, sid);
  }

  lemma ChannelRemovalMeans(conn: Conn, c: Uuid, p: Payload, sid: Option<string>)
    requires "user_id" in p.ids && "channel_id" in p.ids
    ensures Means(conn, c, Plan(ChannelMemberRemoved, p), sid,
                  Hears(conn, ChannelMemberRemoved, p, sid), Keeps(conn, ChannelMemberRemoved, p))
  {
    var u, ch := p.ids["user_id"], p.ids["channel_id"];
    var drop, notice := DropChannel(u, ch), Send(User(u), Frame("ChannelAccessRevoked", p));
    HasTwo(p, "user_id", "channel_id");
    assert Plan(ChannelMemberRemoved, p) == [drop] + [notice];
    var mid := ReplayQueue.Tuned(conn, drop);
    hide Plan;
    DropMeans(conn, c, drop, sid);
    OneMeans(mid, c, notice, sid);
    var told := AsPerson(conn, p, "user_id", "ChannelAccessRevoked", sid);
    assert [] + told == told;
    ThenMeans(conn, c, [drop], [notice], sid, mid, [], told);
  }

  lemma WorkspaceRemovalMeans(conn: Conn, c: Uuid, p: Payload, sid: Option<string>)
    requires "user_id" in p.ids && "workspace_id" in p.ids
    ensures Means(conn, c, Plan(WorkspaceMemberRemoved, p), sid,
                  Hears(conn, WorkspaceMemberRemoved, p, sid), Keeps(conn, WorkspaceMemberRemoved, p))
  {
    var u, ws := p.ids["user_id"], p.ids["workspace_id"];
    var drop, notice := DropWorkspace(u, ws), Send(User(u), Frame("WorkspaceAccessRevoked", p));
    var changed := Send(Workspace(ws), Frame("WorkspaceMembersChanged", p));
    HasTwo(p, "user_id", "workspace_id");
    assert Plan(WorkspaceMemberRemoved, p) == [drop] + ([notice] + [changed]);
    var mid := ReplayQueue.Tuned(conn, drop);
    hide Plan;
    DropMeans(conn, c, drop, sid);
    OneMeans(mid, c, notice, sid);
    OneMeans(mid, c, changed, sid);
    var told := AsPerson(conn, p, "user_id", "WorkspaceAccessRevoked", sid);
    var rest := if u != conn.user then InWorkspace(conn, p, "WorkspaceMembersChanged", sid) else [];
    BothMean(mid, c, [notice], [changed], sid, told, rest);
    assert told + [] == told && [] + rest == rest && [] + (told + rest) == told + rest;
    ThenMeans(conn, c, [drop], [notice] + [changed], sid, mid, [], told + rest);
  }

  lemma WorkspaceJoinMeans(conn: Conn, c: Uuid, p: Payload, sid: Option<string>)
    requires "user_id" in p.ids && "workspace_id" in p.ids
    ensures Means(conn, c, Plan(WorkspaceMemberJoined, p), sid,
                  Hears(conn, WorkspaceMemberJoined, p, sid), Keeps(conn, WorkspaceMemberJoined, p))
  {
    var u, ws := p.ids["user_id"], p.ids["workspace_id"];
    var notice := Send(User(u), Frame("WorkspaceJoined", p));
    var changed := Send(Workspace(ws), Frame("WorkspaceMembersChanged", p));
    HasTwo(p, "user_id", "workspace_id");
    assert Plan(WorkspaceMemberJoined, p) == [notice] + [changed];
    hide Plan;
    OneMeans(conn, c, notice, sid);
    OneMeans(conn, c, changed, sid);
    BothMean(conn, c, [notice], [changed], sid, AsPerson(conn, p, "user_id", "WorkspaceJoined", sid),
             InWorkspace(conn, p, "WorkspaceMembersChanged", sid));
  }

  lemma MembershipEventMeans(conn: Conn, c: Uuid, e: EventType, p: Payload, sid: Option<string>)
    requires e in {ChannelMemberRemoved, WorkspaceMemberRemoved, WorkspaceMemberJoined}
    ensures Means(conn, c, Plan(e, p), sid, Hears(conn, e, p, sid), Keeps(conn, e, p))
  {
    HasTwo(p, "user_id", "channel_id");
    HasTwo(p, "user_id", "workspace_id");
    NoneMeans(conn, c, sid);
    hide Means, Has;
    var place := if e == ChannelMemberRemoved then "channel_id" else "workspace_id";
    if "user_id" in p.ids && place in p.ids {
      match e
      case ChannelMemberRemoved => ChannelRemovalMeans(conn, c, p, sid);
      case WorkspaceMemberRemoved => WorkspaceRemovalMeans(conn, c, p, sid);
      case WorkspaceMemberJoined => WorkspaceJoinMeans(conn, c, p, sid);
    }
  }

  lemma PlanMeans(conn: Conn, c: Uuid, e: EventType, p: Payload, sid: Option<string>)
    requires Respects(e)
    ensures Means(conn, c, Plan(e, p), sid, Hears(conn, e, p, sid), Keeps(conn, e, p))
  {
    hide Means, Plan, Hears, Keeps;
    match e
    case MessageCreated | MessageUpdated | MessageDeleted | MessagePinned | ReactionAdded | ReactionRemoved
       | TypingIndicator | ChannelUpdated => ChannelEventMeans(conn, c, e, p, sid);
    case NotificationPush | ChannelReadState | CommandResponse | LaterUpdated
       | ThreadReadState => ReaderEventMeans(conn, c, e, p, sid);
    case HuddleRing | HuddleOffer | HuddleAnswer | HuddleIce => CallEventMeans(conn, c, e, p, sid);
    case HuddleMemberJoined | HuddleMemberLeft | HuddleMute | HuddleCamera => PresentEventMeans(conn, c, e, p, sid);
    case HuddleScreenshare | HuddleReaction | HuddleHand
       | HuddleTransport => GestureEventMeans(conn, c, e, p, sid);
    case HuddleStarted | HuddleEnded => CallSpanMeans(conn, c, e, p, sid);
    case ListUpserted | ListDeleted | ListColumnsChanged | ListViewsChanged => ListEventMeans(conn, c, e, p, sid);
    case WorkspaceDeleted | WorkspaceEmojiChanged | WorkspaceRestored
       | ConversationCreated => WorkspaceEventMeans(conn, c, e, p, sid);
    case ChannelMemberRemoved | WorkspaceMemberRemoved
       | WorkspaceMemberJoined => MembershipEventMeans(conn, c, e, p, sid);
    case PresenceRecompute | ChannelMemberJoined | ChannelCreated
       | Unknown => NothingMeans(conn, c, e, p, sid);
    case _ => ListItemEventMeans(conn, c, e, p, sid);
  }

  lemma NothingMeans(conn: Conn, c: Uuid, e: EventType, p: Payload, sid: Option<string>)
    requires e in {PresenceRecompute, ChannelMemberJoined, ChannelCreated, Unknown}
    ensures Means(conn, c, Plan(e, p), sid, Hears(conn, e, p, sid), Keeps(conn, e, p))
  {
    hide Means, Has, ToChannel, ToUser, ToWorkspace, ToHuddle, ToEach, AboutHuddle, AboutList,
      OnChannel, InWorkspace, InHuddle, AsPerson, AsListed, AboutCall, AboutListItem;
    NoneMeans(conn, c, sid);
  }

  // ---- The event itself ----

  /** The connection after an event: what it hears is queued, in order, if its queue of
      256 takes it all; if not, it is gone. Its subscriptions are those it keeps. */
  predicate Served(before: Conn, after: Option<Conn>, heard: seq<Queued>, kept: Conn) {
    if heard == [] || (!before.closed && |before.queue| + |heard| <= 256)
    then after == Some(kept.(queue := before.queue + heard))
    else after == None
  }

  /** Every connection of the audience is served what it hears of the event. */
  lemma EventReaches(
    conns: Conns, a: Audience, e: EventType, p: Payload, sid: Option<string>, d: Uuid)
    requires Respects(e) && d in conns && (a.Everyone? || a.conn == d)
    ensures Served(conns[d], Lookup(Handle(conns, a, e, p, sid), d), Hears(conns[d], e, p, sid), Keeps(conns[d], e, p))
  {
    hide Plan, Hears, Keeps, PerformAll, Means;
    var conn := conns[d];
    PlanIsBound(e, p);
    PlanIsLocal(conns, conns, d, Plan(e, p), sid);
    PlanMeans(conn, d, e, p, sid);
    MeansServed(conns, d, Plan(e, p), sid, Hears(conn, e, p, sid), Keeps(conn, e, p));
  }

  lemma MeansServed(
    conns: Conns, d: Uuid, plan: seq<Action>, sid: Option<string>, heard: seq<Queued>, kept: Conn)
    requires d in conns && AllBound(plan) && Means(conns[d], d, plan, sid, heard, kept)
    ensures Served(conns[d], Lookup(PerformAll(conns, Only(d), plan, sid), d), heard, kept)
  {
    var conn := conns[d];
    ReplayQueue.NothingGiven(conn);
    ReplayQueue.PlanGives(conns, d, plan, sid, conn, conn, []);
    assert [] + heard == heard;
  }

  /** A connection outside the audience is queued nothing and keeps what it keeps. */
  lemma EventPassesBy(
    conns: Conns, e: EventType, p: Payload, sid: Option<string>, c: Uuid, d: Uuid)
    requires Respects(e) && d in conns && c != d
    ensures Lookup(Handle(conns, Only(c), e, p, sid), d) == Some(Keeps(conns[d], e, p))
  {
    hide Plan, Hears, Keeps;
    PlanIsBound(e, p);
    PlanMeans(conns[d], d, e, p, sid);
    PlanPassesBy(conns, Plan(e, p), sid, c, d);
  }

  lemma {:induction false} PlanPassesBy(conns: Conns, plan: seq<Action>, sid: Option<string>, c: Uuid, d: Uuid)
    requires AllBound(plan) && d in conns && c != d
    ensures Lookup(PerformAll(conns, Only(c), plan, sid), d) == Some(ReplayQueue.TunedBy(conns[d], plan))
  {
    if plan != [] {
      var n := |plan| - 1;
      PlanPassesBy(conns, plan[..n], sid, c, d);
      ReplayQueue.TunedKeeps(conns[d], plan[..n]);
      ActionPassesBy(PerformAll(conns, Only(c), plan[..n], sid), plan[n], sid, c, d);
    }
  }

  lemma ActionPassesBy(conns: Conns, action: Action, sid: Option<string>, c: Uuid, d: Uuid)
    requires Bound(action) && d in conns && c != d
    ensures Lookup(Perform(conns, Only(c), action, sid), d) == Some(ReplayQueue.Tuned(conns[d], action))
  {
    assert d in ConnsOf(conns, conns[d].user);
  }

  // ---- The three that reach beyond an audience ----

  /** A presence change is heard, whoever the audience is, by every connection that
      shares one of the workspaces listed. */
  lemma PresenceReaches(conns: Conns, a: Audience, p: Payload, sid: Option<string>, d: Uuid)
    requires d in conns
    ensures var told := "user_id" in p.ids && p.statusOk
                        && exists ws <- ListOf(p, "workspace_ids") :: ws in conns[d].workspaces;
      Served(conns[d], Lookup(Handle(conns, a, PresenceChanged, p, sid), d),
             if told then Hear(p, "PresenceChanged", MembersOf(Elems(ListOf(p, "workspace_ids"))), sid) else [],
             conns[d])
  {
    var listed := ListOf(p, "workspace_ids");
    assert conns[d].queue + [] == conns[d].queue;
    if "user_id" in p.ids && p.statusOk {
      var x := Send(MembersOf(Elems(listed)), Frame("PresenceChanged", p));
      OneAction(conns, a, x, sid);
      SharesOne(conns[d].workspaces, listed);
    }
  }

  lemma SharesOne(workspaces: set<Uuid>, listed: seq<Uuid>)
    ensures workspaces * Elems(listed) != {} <==> exists ws <- listed :: ws in workspaces
  {
    if workspaces * Elems(listed) != {} {
      var ws :| ws in workspaces * Elems(listed);
      assert ws in listed && ws in workspaces;
    }
    if ws :| ws in listed && ws in workspaces { assert ws in workspaces * Elems(listed); }
  }

  /** A suspension closes every connection of the user, a revocation all but the spared
      session's: each is queued the close frame if it has room, and is left alone if not. */
  lemma EndOfSessionReaches(conns: Conns, a: Audience, e: EventType, p: Payload, sid: Option<string>, d: Uuid)
    requires d in conns && e in {UserSuspended, SessionRevoked}
    ensures var spared := e == SessionRevoked && "except_jti" in p.ids && conns[d].jti == Some(p.ids["except_jti"]);
      var closed := "user_id" in p.ids && conns[d].user == p.ids["user_id"] && !spared
                    && !conns[d].closed && |conns[d].queue| < 256;
      Lookup(Handle(conns, a, e, p, sid), d)
      == Some(if closed then Push(conns[d], Queued(Close(4001), User(conns[d].user))) else conns[d])
  {
    EndPlan(e, p);
    hide Plan;
    if "user_id" in p.ids {
      OneAction(conns, a, EndOf(e, p), sid);
      assert conns[d].user == p.ids["user_id"] <==> d in ConnsOf(conns, p.ids["user_id"]);
    }
  }

  function EndOf(e: EventType, p: Payload): Action
    requires "user_id" in p.ids
  {
    Disconnect(p.ids["user_id"], if e == SessionRevoked then Field(p, "except_jti") else None)
  }

  lemma EndPlan(e: EventType, p: Payload)
    requires e in {UserSuspended, SessionRevoked}
    ensures Plan(e, p) == if "user_id" in p.ids then [EndOf(e, p)] else []
  {
    hide Has, ToChannel, ToUser, ToWorkspace, ToHuddle, ToEach, AboutHuddle, AboutList;
  }
}
