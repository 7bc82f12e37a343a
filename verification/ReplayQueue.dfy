/** What a replay leaves on the asking connection's queue of 256. */
module ReplayQueue {
  import opened Options
  import opened StreamId
  import opened Registry
  import opened Routing
  import opened Replay

  /** The subscriptions after an action that changes the owner's own. */
  function Tuned(conn: Conn, action: Action): Conn {
    match action
    case DropChannel(u, ch) => if conn.user == u then WithoutChannel(ch)(conn) else conn
    case DropWorkspace(u, ws) => if conn.user == u then WithoutWorkspace(ws)(conn) else conn
    case _ => conn
  }

  function TunedBy(conn: Conn, plan: seq<Action>): Conn {
    if plan == [] then conn else Tuned(TunedBy(conn, plan[..|plan| - 1]), plan[|plan| - 1])
  }

  predicate IsFor(action: Action, c: Uuid, conn: Conn) { action.Send? && Matches(action.to, c, conn) }

  /** The frames of a plan that are for the connection, in order, however full it is. */
  function Addressed(conn: Conn, c: Uuid, plan: seq<Action>, sid: Option<string>): seq<Queued> {
    if plan == [] then [] else
      var init, last := plan[..|plan| - 1], plan[|plan| - 1];
      Addressed(conn, c, init, sid)
      + if IsFor(last, c, TunedBy(conn, init)) then [Queued(Text(last.frame, sid), last.to)] else []
  }

  /** The queue takes the frames, all of them. */
  predicate Fit(conn: Conn, frames: seq<Queued>) {
    frames == [] || (!conn.closed && |conn.queue| + |frames| <= QUEUE_CAP)
  }

  /** The connection with the frames queued, or gone where they do not fit. */
  function Given(conn: Conn, tuned: Conn, frames: seq<Queued>): Option<Conn> {
    if Fit(conn, frames) then Some(tuned.(queue := conn.queue + frames)) else None
  }

  predicate SameButChannels(a: Conn, b: Conn) {
    a.user == b.user && a.queue == b.queue && a.closed == b.closed
  }

  lemma {:induction false} TunedKeeps(conn: Conn, plan: seq<Action>)
    ensures SameButChannels(TunedBy(conn, plan), conn)
  {
    if plan != [] { TunedKeeps(conn, plan[..|plan| - 1]); }
  }

  /** One action, on a connection that took all frames so far or is gone. */
  lemma ActionGives(
    conns: Conns, c: Uuid, action: Action, sid: Option<string>, conn: Conn, tuned: Conn, frames: seq<Queued>)
    requires Bound(action) && SameButChannels(tuned, conn)
    requires Lookup(conns, c) == Given(conn, tuned, frames)
    ensures var more := if IsFor(action, c, tuned) then [Queued(Text(action.frame, sid), action.to)] else [];
      Lookup(Perform(conns, Only(c), action, sid), c) == Given(conn, Tuned(tuned, action), frames + more)
  {
    if c in conns {
      var q := if action.Send? then [Queued(Text(action.frame, sid), action.to)] else [];
      assert conns[c].user == tuned.user && c in ConnsOf(conns, tuned.user);
      assert IsFor(action, c, conns[c]) <==> IsFor(action, c, tuned);
      assert frames + [] == frames;
      assert (conn.queue + frames) + q == conn.queue + (frames + q);
    }
  }

  lemma {:induction false} PlanGives(conns: Conns, c: Uuid, plan: seq<Action>, sid: Option<string>, conn: Conn,
                                     tuned: Conn, frames: seq<Queued>)
    requires AllBound(plan) && SameButChannels(tuned, conn)
    requires Lookup(conns, c) == Given(conn, tuned, frames)
    ensures Lookup(PerformAll(conns, Only(c), plan, sid), c)
         == Given(conn, TunedBy(tuned, plan), frames + Addressed(tuned, c, plan, sid))
  {
    hide Given, Perform, Matches, Tuned;
    if plan == [] {
      assert frames + [] == frames;
    } else {
      var init, last := plan[..|plan| - 1], plan[|plan| - 1];
      PlanGives(conns, c, init, sid, conn, tuned, frames);
      TunedKeeps(tuned, init);
      var mid := TunedBy(tuned, init);
      var more := if IsFor(last, c, mid) then [Queued(Text(last.frame, sid), last.to)] else [];
      ActionGives(PerformAll(conns, Only(c), init, sid), c, last, sid, conn, mid,
                  frames + Addressed(tuned, c, init, sid));
      Reassociate(frames, Addressed(tuned, c, init, sid), more);
    }
  }

  // ---- Whole replays ----

  /** What the log carries: events that stay within their audience. */
  predicate AllRespect(es: seq<Entry>) {
    forall i :: 0 <= i < |es| ==> (es[i].event.Some? ==> Respects(es[i].event.value.0))
  }

  function PlanOf(e: Entry): seq<Action> {
    match e.event case None => [] case Some((kind, payload)) => Plan(kind, payload)
  }

  function TunedByAll(conn: Conn, es: seq<Entry>): Conn {
    if es == [] then conn else TunedBy(TunedByAll(conn, es[..|es| - 1]), PlanOf(es[|es| - 1]))
  }

  /** The frames the entries hold for the connection, each with its entry's position. */
  function FramesFor(conn: Conn, c: Uuid, es: seq<Entry>): seq<Queued> {
    if es == [] then [] else
      var init, e := es[..|es| - 1], es[|es| - 1];
      FramesFor(conn, c, init) + Addressed(TunedByAll(conn, init), c, PlanOf(e), Some(Format(e.id)))
  }

  lemma {:induction false} AllTunedKeeps(conn: Conn, es: seq<Entry>)
    ensures SameButChannels(TunedByAll(conn, es), conn)
  {
    if es != [] {
      AllTunedKeeps(conn, es[..|es| - 1]);
      TunedKeeps(TunedByAll(conn, es[..|es| - 1]), PlanOf(es[|es| - 1]));
    }
  }

  lemma HandleIsPlan(conns: Conns, a: Audience, es: seq<Entry>)
    requires es != []
    ensures var e := es[|es| - 1];
      HandleEach(conns, a, es)
      == PerformAll(HandleEach(conns, a, es[..|es| - 1]), a, PlanOf(e), Some(Format(e.id)))
  {
    hide Plan, Format;
  }

  /** The asking connection survives a replay if and only if its queue takes every
      frame the entries hold for it; then exactly those are queued, in order. */
  lemma {:induction false} ReplayQueues(conns: Conns, c: Uuid, es: seq<Entry>)
    requires c in conns && AllRespect(es)
    ensures var conn, after := conns[c], HandleEach(conns, Only(c), es);
      && Lookup(after, c) == Given(conn, TunedByAll(conn, es), FramesFor(conn, c, es))
      && (c in after <==> Fit(conn, FramesFor(conn, c, es)))
      && (c in after ==> after[c].queue == conn.queue + FramesFor(conn, c, es))
  {
    hide PerformAll, Addressed, TunedBy, PlanOf, Respects, Format;
    var conn := conns[c];
    if es == [] {
      NothingGiven(conn);
    } else {
      var init, e := es[..|es| - 1], es[|es| - 1];
      ReplayQueues(conns, c, init);
      HandleIsPlan(conns, Only(c), es);
      AllTunedKeeps(conn, init);
      PlanOfBound(e);
      PlanGives(HandleEach(conns, Only(c), init), c, PlanOf(e), Some(Format(e.id)), conn,
                TunedByAll(conn, init), FramesFor(conn, c, init));
    }
  }

  lemma NothingGiven(conn: Conn)
    ensures Given(conn, conn, []) == Some(conn)
  {
    assert conn.queue + [] == conn.queue;
  }

  lemma PlanOfBound(e: Entry)
    requires e.event.Some? ==> Respects(e.event.value.0)
    ensures AllBound(PlanOf(e))
  {
    hide Plan, Respects;
    if e.event.Some? { PlanIsBound(e.event.value.0, e.event.value.1); }
  }

  // ---- As on the live path ----

  /** The same message by the same route, the position in the log apart. */
  predicate SameMessage(q: Queued, r: Queued) {
    && q.via == r.via
    && match (q.message, r.message)
       case (Text(f, _), Text(g, _)) => f == g
       case (Close(m), Close(n)) => m == n
       case _ => false
  }

  predicate SameMessages(a: seq<Queued>, b: seq<Queued>) {
    |a| == |b| && forall k :: 0 <= k < |a| ==> SameMessage(a[k], b[k])
  }

  predicate Alike(a: Option<Conn>, b: Option<Conn>) {
    match (a, b)
    case (Some(x), Some(y)) => x.(queue := []) == y.(queue := []) && SameMessages(x.queue, y.queue)
    case (None, None) => true
    case _ => false
  }

  /** On the live path each event has the position it was published with, if any. */
  function HandleLive(conns: Conns, es: seq<Entry>, positions: seq<Option<string>>): Conns
    requires |positions| == |es|
  {
    if es == [] then conns else
      var n := |es| - 1;
      PerformAll(HandleLive(conns, es[..n], positions[..n]), Everyone, PlanOf(es[n]), positions[n])
  }

  lemma PerformAlike(
    live: Conns, replayed: Conns, c: Uuid, action: Action, a: Option<string>, b: Option<string>)
    requires Alike(Lookup(live, c), Lookup(replayed, c))
    ensures Alike(Lookup(Perform(live, Everyone, action, a), c), Lookup(Perform(replayed, Only(c), action, b), c))
  {
    if c in live && action.Send? {
      assert Matches(action.to, c, live[c]) <==> Matches(action.to, c, replayed[c]);
    }
  }

  lemma {:induction false} PlanAlike(
    live: Conns, replayed: Conns, c: Uuid, plan: seq<Action>, a: Option<string>, b: Option<string>)
    requires Alike(Lookup(live, c), Lookup(replayed, c))
    ensures Alike(Lookup(PerformAll(live, Everyone, plan, a), c), Lookup(PerformAll(replayed, Only(c), plan, b), c))
  {
    hide Perform, Alike;
    if plan != [] {
      var init := plan[..|plan| - 1];
      PlanAlike(live, replayed, c, init, a, b);
      PerformAlike(PerformAll(live, Everyone, init, a), PerformAll(replayed, Only(c), init, b), c,
                   plan[|plan| - 1], a, b);
    }
  }

  /** A replay leaves the connection as the live path would have, whatever positions
      the live frames carried: the same messages queued, or gone alike. */
  lemma {:induction false} ReplayEndsAsLive(
    live: Conns, replayed: Conns, c: Uuid, es: seq<Entry>, positions: seq<Option<string>>)
    requires Alike(Lookup(live, c), Lookup(replayed, c)) && |positions| == |es|
    ensures Alike(Lookup(HandleLive(live, es, positions), c), Lookup(HandleEach(replayed, Only(c), es), c))
  {
    hide PerformAll, PlanOf, Format, Alike;
    if es != [] {
      var n := |es| - 1;
      ReplayEndsAsLive(live, replayed, c, es[..n], positions[..n]);
      HandleIsPlan(replayed, Only(c), es);
      PlanAlike(HandleLive(live, es[..n], positions[..n]), HandleEach(replayed, Only(c), es[..n]), c,
                PlanOf(es[n]), positions[n], Some(Format(es[n].id)));
    }
  }
}
