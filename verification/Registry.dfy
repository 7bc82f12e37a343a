/**
 The gateway's connection registry: who is connected, what each connection is
 subscribed to, and its bounded outgoing queue. The index from users to their
 connections is a second map kept in step by hand.
 */
module Registry {
  import opened Options

  type Uuid = nat

  const QUEUE_CAP := 256

  /** The fields of an event the gateway reads; `rest` stands for the others. */
  datatype Payload = Payload(
    ids: map<string, Uuid>, lists: map<string, seq<Uuid>>,
    quiet: bool, typed: bool, statusOk: bool, rest: nat)

  datatype Frame = Frame(kind: string, payload: Payload)

  datatype Message = Text(frame: Frame, streamId: Option<string>) | Close(code: nat)

  /** Who a message is for; kept on the queued message to tell how it got there. */
  datatype Target =
    | Channel(channel: Uuid)
    | Workspace(workspace: Uuid)
    | Huddle(huddle: Uuid)
    | Everybody
    | User(user: Uuid)
    | MembersOf(workspaces: set<Uuid>)
    | OneConn(conn: Uuid)

  datatype Queued = Queued(message: Message, via: Target)

  datatype Conn = Conn(
    user: Uuid, jti: Option<Uuid>, queue: seq<Queued>, closed: bool,
    workspaces: set<Uuid>, channels: set<Uuid>, huddles: set<Uuid>)

  type Conns = map<Uuid, Conn>

  datatype Audience = Everyone | Only(conn: Uuid)

  predicate Includes(a: Audience, c: Uuid) { a.Everyone? || a.conn == c }

  predicate Matches(t: Target, c: Uuid, conn: Conn) {
    match t
    case Channel(ch) => ch in conn.channels
    case Workspace(ws) => ws in conn.workspaces
    case Huddle(h) => h in conn.huddles
    case Everybody => true
    case User(u) => conn.user == u
    case MembersOf(ws) => conn.workspaces * ws != {}
    case OneConn(only) => c == only
  }

  predicate HasRoom(conn: Conn) { !conn.closed && |conn.queue| < QUEUE_CAP }

  function Push(conn: Conn, q: Queued): Conn { conn.(queue := conn.queue + [q]) }

  /** Every target with room gets the message once; the others are dropped. */
  function Deliver(conns: Conns, targets: set<Uuid>, q: Queued): Conns {
    map c | c in conns && (c in targets ==> HasRoom(conns[c])) ::
      if c in targets then Push(conns[c], q) else conns[c]
  }

  function Targets(conns: Conns, a: Audience, t: Target): set<Uuid> {
    set c | c in conns && Includes(a, c) && Matches(t, c, conns[c])
  }

  function ConnsOf(conns: Conns, u: Uuid): set<Uuid> { set c | c in conns && conns[c].user == u }

  function Users(conns: Conns): set<Uuid> { set c | c in conns :: conns[c].user }

  function IndexOf(conns: Conns): map<Uuid, set<Uuid>> {
    map u | u in Users(conns) :: ConnsOf(conns, u)
  }

  /** The connections with some of them changed. */
  function Changed(conns: Conns, cs: set<Uuid>, f: Conn -> Conn): Conns {
    map c | c in conns :: if c in cs then f(conns[c]) else conns[c]
  }

  function WithoutChannel(ch: Uuid): Conn -> Conn {
    (conn: Conn) => conn.(channels := conn.channels - {ch})
  }

  function WithoutWorkspace(ws: Uuid): Conn -> Conn {
    (conn: Conn) => conn.(workspaces := conn.workspaces - {ws})
  }

  predicate Spared(conn: Conn, except: Option<Uuid>) { except.Some? && conn.jti == except }

  /** A close frame is tried once and its refusal ignored. */
  function Closing(except: Option<Uuid>, q: Queued): Conn -> Conn {
    (conn: Conn) => if !Spared(conn, except) && HasRoom(conn) then Push(conn, q) else conn
  }

  function Elems(ids: seq<Uuid>): set<Uuid> { set id | id in ids }

  function Joining(conns: Conns, c: Uuid, allowed: seq<Uuid>): Conns {
    if c in conns
    then conns[c := conns[c].(channels := conns[c].channels + Elems(allowed))]
    else conns
  }

  lemma UsersHaveConns(conns: Conns, u: Uuid)
    ensures u in Users(conns) <==> ConnsOf(conns, u) != {}
  {
    assert u in Users(conns) ==> exists c :: c in conns && conns[c].user == u;
    if c :| c in conns && conns[c].user == u { assert c in ConnsOf(conns, u); }
  }

  lemma IndexAfterAdd(conns: Conns, c: Uuid, conn: Conn)
    requires c in conns ==> conns[c].user == conn.user
    ensures IndexOf(conns[c := conn])
         == IndexOf(conns)[conn.user := ConnsOf(conns, conn.user) + {c}]
  {
    var after := conns[c := conn];
    assert Users(after) == Users(conns) + {conn.user} by {
      forall u | u in Users(conns) ensures u in Users(after) {
        var d :| d in conns && conns[d].user == u;
        assert d in after && after[d].user == u;
      }
      assert c in after;
    }
    assert ConnsOf(after, conn.user) == ConnsOf(conns, conn.user) + {c};
    forall u | u in Users(conns) && u != conn.user ensures ConnsOf(after, u) == ConnsOf(conns, u) {}
  }

  lemma IndexAfterRemove(conns: Conns, c: Uuid)
    requires c in conns
    ensures var u := conns[c].user;
      var left := ConnsOf(conns, u) - {c};
      && u in IndexOf(conns) && IndexOf(conns)[u] == ConnsOf(conns, u)
      && IndexOf(conns - {c}) == if left == {} then IndexOf(conns) - {u} else IndexOf(conns)[u := left]
  {
    var u := conns[c].user;
    var after := conns - {c};
    var left := ConnsOf(conns, u) - {c};
    assert ConnsOf(after, u) == left;
    forall v | v != u ensures ConnsOf(after, v) == ConnsOf(conns, v) && (v in Users(after) <==> v in Users(conns)) {
      if v in Users(conns) {
        var d :| d in conns && conns[d].user == v;
        assert d in after;
      }
    }
    UsersHaveConns(after, u);
  }

  /** Changing anything but the owner leaves the index as it was. */
  lemma IndexSame(conns: Conns, after: Conns)
    requires after.Keys == conns.Keys
    requires forall c <- conns :: after[c].user == conns[c].user
    ensures IndexOf(after) == IndexOf(conns)
  {
    assert Users(after) == Users(conns) by {
      forall u | u in Users(conns) ensures u in Users(after) {
        var d :| d in conns && conns[d].user == u;
        assert d in after && after[d].user == u;
      }
    }
    forall u ensures ConnsOf(after, u) == ConnsOf(conns, u) {}
  }

  /** An added connection keeps the index right exactly when its id is new, or
      was the same user's: otherwise the former owner keeps a stale entry. */
  lemma AddKeepsIndexIff(conns: Conns, c: Uuid, conn: Conn)
    ensures IndexOf(conns[c := conn]) == IndexOf(conns)[conn.user := ConnsOf(conns, conn.user) + {c}]
       <==> (c in conns ==> conns[c].user == conn.user)
  {
    if c in conns && conns[c].user != conn.user {
      var old_ := conns[c].user;
      assert old_ in Users(conns) && c in ConnsOf(conns, old_);
      assert c !in ConnsOf(conns[c := conn], old_);
      assert c in IndexOf(conns)[conn.user := ConnsOf(conns, conn.user) + {c}][old_];
    } else {
      IndexAfterAdd(conns, c, conn);
    }
  }

  /** A connection that is told has the message at the end of its queue if it was open
      with room for it, and is gone if not; any other is as it was. */
  predicate DeliveredTo(before: Conns, after: Conns, told: bool, c: Uuid, q: Queued)
    requires c in before
  {
    if !told then c in after && after[c] == before[c]
    else if !before[c].closed && |before[c].queue| < 256
    then c in after && after[c] == before[c].(queue := before[c].queue + [q])
    else c !in after
  }

  class ConnectionManager {
    var connections: Conns
    var userConnections: map<Uuid, set<Uuid>>

    ghost predicate Valid()
      reads this
    {
      userConnections == IndexOf(connections)
    }

    constructor ()
      ensures Valid() && connections == map[]
    {
      connections, userConnections := map[], map[];
    }

    method AddConnection(c: Uuid, user: Uuid, jti: Option<Uuid>) returns (first: bool)
      requires Valid()
      modifies this
      ensures connections == old(connections)[c := Conn(user, jti, [], false, {}, {}, {})]
      ensures Valid() <==> (c in old(connections) ==> old(connections)[c].user == user)
      ensures first <==> ConnsOf(old(connections), user) == {}
    {
      ghost var before := connections;
      AddKeepsIndexIff(before, c, Conn(user, jti, [], false, {}, {}, {}));
      connections := connections[c := Conn(user, jti, [], false, {}, {}, {})];
      var entry := if user in userConnections then userConnections[user] else {};
      UsersHaveConns(before, user);
      first := entry == {};
      userConnections := userConnections[user := entry + {c}];
    }

    method RemoveConnection(c: Uuid) returns (removed: Option<(Uuid, bool)>)
      requires Valid()
      modifies this
      ensures Valid() && connections == old(connections) - {c}
      ensures removed.None? <==> c !in old(connections)
      ensures removed.Some? ==>
        removed.value == (old(connections)[c].user, ConnsOf(connections, old(connections)[c].user) == {})
    {
      if c !in connections {
        return None;
      }
      var user := connections[c].user;
      IndexAfterRemove(connections, c);
      assert ConnsOf(connections - {c}, user) == ConnsOf(connections, user) - {c};
      connections := connections - {c};
      var wasLast := false;
      if user in userConnections {
        var left := userConnections[user] - {c};
        if left == {} {
          userConnections := userConnections - {user};
          wasLast := true;
        } else {
          userConnections := userConnections[user := left];
        }
      }
      return Some((user, wasLast));
    }

    /** Queues the message, or answers with the owner of a connection to drop. */
    method Enqueue(c: Uuid, q: Queued) returns (dead: Option<Uuid>)
      requires Valid()
      modifies this`connections
      ensures Valid()
      ensures dead.Some? <==>
        c in old(connections) && (old(connections)[c].closed || |old(connections)[c].queue| >= 256)
      ensures dead.Some? ==> dead.value == old(connections)[c].user
      ensures connections == if c in old(connections) && dead.None?
                             then old(connections)[c := Push(old(connections)[c], q)]
                             else old(connections)
    {
      if c !in connections {
        return None;
      }
      if !HasRoom(connections[c]) {
        return Some(connections[c].user);
      }
      IndexSame(connections, connections[c := Push(connections[c], q)]);
      connections := connections[c := Push(connections[c], q)];
      return None;
    }

    method SendToEach(targets: set<Uuid>, q: Queued)
      requires Valid()
      modifies this
      ensures Valid() && connections == Deliver(old(connections), targets, q)
    {
      var rest := targets;
      while rest != {}
        invariant rest <= targets
        invariant Valid() && connections == Deliver(old(connections), targets - rest, q)
      {
        var c :| c in rest;
        assert targets - (rest - {c}) == (targets - rest) + {c};
        var dead := Enqueue(c, q);
        if dead.Some? {
          var gone := RemoveConnection(c);
        }
        rest := rest - {c};
      }
      assert targets - rest == targets;
    }

    method FanOutTo(a: Audience, t: Target, q: Queued)
      requires Valid()
      modifies this
      ensures Valid() && connections == Deliver(old(connections), Targets(old(connections), a, t), q)
      ensures connections.Keys <= old(connections).Keys
      ensures forall c <- old(connections) ::
        DeliveredTo(old(connections), connections,
                    (a.Everyone? || a.conn == c) && Matches(t, c, old(connections)[c]), c, q)
    {
      var targets := {};
      var rest := connections.Keys;
      while rest != {}
        invariant rest <= connections.Keys
        invariant connections == old(connections) && Valid()
        invariant targets == Targets(connections, a, t) - rest
      {
        var c :| c in rest;
        if Includes(a, c) && Matches(t, c, connections[c]) {
          targets := targets + {c};
        }
        rest := rest - {c};
      }
      assert targets == Targets(connections, a, t);
      SendToEach(targets, q);
    }

    /** Goes by the index, not by a scan. */
    method SendToUser(a: Audience, u: Uuid, q: Queued)
      requires Valid()
      modifies this
      ensures Valid() && connections == Deliver(old(connections), Targets(old(connections), a, User(u)), q)
      ensures connections.Keys <= old(connections).Keys
      ensures forall c <- old(connections) ::
        DeliveredTo(old(connections), connections, (a.Everyone? || a.conn == c) && old(connections)[c].user == u, c, q)
    {
      if u !in userConnections {
        UsersHaveConns(connections, u);
        assert Targets(connections, a, User(u)) <= ConnsOf(connections, u);
        assert Targets(connections, a, User(u)) == {};
        assert connections == Deliver(connections, {}, q);
        return;
      }
      var ids := userConnections[u];
      var targets := set c | c in ids && Includes(a, c);
      assert targets == Targets(connections, a, User(u));
      SendToEach(targets, q);
    }

    /** The gateway's loop over one user's connections, found through the index. */
    method ChangeForUser(u: Uuid, f: Conn -> Conn)
      requires Valid()
      requires forall conn :: f(conn).user == conn.user
      modifies this`connections
      ensures Valid()
      ensures connections == Changed(old(connections), ConnsOf(old(connections), u), f)
      ensures connections.Keys == old(connections).Keys
      ensures forall c <- connections ::
        connections[c] == if old(connections)[c].user == u then f(old(connections)[c]) else old(connections)[c]
    {
      UsersHaveConns(connections, u);
      if u !in userConnections {
        assert connections == Changed(connections, {}, f);
        return;
      }
      var rest := userConnections[u];
      ghost var all := ConnsOf(connections, u);
      while rest != {}
        invariant rest <= all
        invariant connections == Changed(old(connections), all - rest, f)
      {
        var c :| c in rest;
        assert all - (rest - {c}) == (all - rest) + {c};
        connections := connections[c := f(connections[c])];
        rest := rest - {c};
      }
      assert all - rest == all;
      IndexSame(old(connections), connections);
    }

    method JoinChannels(c: Uuid, allowed: seq<Uuid>)
      requires Valid()
      modifies this`connections
      ensures Valid() && connections == Joining(old(connections), c, allowed)
      ensures connections.Keys == old(connections).Keys
      ensures forall d <- connections :: d != c ==> connections[d] == old(connections)[d]
      ensures c in connections ==>
        && connections[c] == old(connections)[c].(channels := connections[c].channels)
        && forall ch :: ch in connections[c].channels <==> ch in old(connections)[c].channels || ch in allowed
    {
      var i := 0;
      assert c in connections ==>
          connections[c].channels + Elems(allowed[..0]) == connections[c].channels;
      while i < |allowed|
        invariant i <= |allowed|
        invariant Valid() && connections == Joining(old(connections), c, allowed[..i])
      {
        assert allowed[..i + 1] == allowed[..i] + [allowed[i]];
        if c in connections {
          var joined := connections[c := connections[c].(channels := connections[c].channels + {allowed[i]})];
          IndexSame(connections, joined);
          assert joined[c].channels == old(connections)[c].channels + Elems(allowed[..i + 1]);
          connections := joined;
        }
        i := i + 1;
      }
      assert allowed[..i] == allowed;
    }
  }
}
