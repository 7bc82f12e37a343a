/**
 The in-memory half of delivery: an app's open sockets, each with a bounded
 queue, and the rotation that spreads frames over them.
 */
module AppSockets {
  import opened Options
  import opened AppDelivery
  import Registry

  datatype Frame = Frame(envelope: Id, retryAttempt: int) | Disconnect | Close

  datatype Socket = Socket(id: nat, queue: seq<Frame>, closed: bool)

  predicate HasRoom(s: Socket) { !s.closed && |s.queue| < Registry.QUEUE_CAP }

  function Push(s: Socket, f: Frame): Socket { s.(queue := s.queue + [f]) }

  function Turn(list: seq<Socket>, start: nat, offset: nat): nat
    requires list != []
    ensures Turn(list, start, offset) < |list|
  {
    (start + offset) % |list|
  }

  /** How many sockets are passed over, from the start of the rotation, before one
      with room; all of them when there is none. */
  function Skips(list: seq<Socket>, start: nat, offset: nat): (n: nat)
    requires list != [] && offset <= |list|
    ensures offset <= n <= |list|
    ensures forall o :: offset <= o < n ==> !HasRoom(list[Turn(list, start, o)])
    ensures n < |list| ==> HasRoom(list[Turn(list, start, n)])
    decreases |list| - offset
  {
    if offset == |list| || HasRoom(list[Turn(list, start, offset)]) then offset
    else Skips(list, start, offset + 1)
  }

  datatype Sending = Sending(sockets: map<nat, seq<Socket>>, next: nat)

  function SendTo(s: Sending, app: nat, f: Frame): Sending {
    if app !in s.sockets || s.sockets[app] == [] then s else
      var list := s.sockets[app];
      var n := Skips(list, s.next, 0);
      if n == |list| then s.(next := s.next + 1) else
        var i := Turn(list, s.next, n);
        Sending(s.sockets[app := list[i := Push(list[i], f)]], s.next + 1)
  }

  predicate CanReach(s: Sending, app: nat) {
    app in s.sockets && exists i :: 0 <= i < |s.sockets[app]| && HasRoom(s.sockets[app][i])
  }

  function SendAll(s: Sending, rows: map<Id, Row>, ids: seq<Id>): Sending
    requires forall id <- ids :: id in rows
  {
    if ids == [] then s else
      var id := ids[|ids| - 1];
      SendTo(SendAll(s, rows, ids[..|ids| - 1]), rows[id].app, Frame(id, rows[id].attempts - 1))
  }

  lemma Multiple(n: int, k: int)
    requires n >= 0
    ensures k >= 1 ==> n * k >= n
    ensures k <= -1 ==> n * k <= -n
  {
  }

  lemma TurnsDiffer(n: nat, a: nat, b: nat)
    requires a < b < a + n
    ensures a % n != b % n
  {
    var k := b / n - a / n;
    Multiple(n, k);
    assert n * k == (b - b % n) - (a - a % n);
  }

  lemma TurnsCover(list: seq<Socket>, start: nat, i: nat) returns (offset: nat)
    requires i < |list|
    ensures offset < |list| && Turn(list, start, offset) == i
  {
    var n := |list|;
    var r := start % n;
    offset := if i >= r then i - r else i + n - r;
    var q := start / n;
    assert start + offset == n * q + (r + offset);
    assert r + offset == i || r + offset == i + n;
    if r + offset == i { ModOf(n, q, i); } else { assert n * q + n == n * (q + 1); ModOf(n, q + 1, i); }
  }

  lemma ModOf(n: nat, q: nat, i: nat)
    requires i < n
    ensures (n * q + i) % n == i
  {
    var d := (n * q + i) / n;
    Multiple(n, q - d);
    assert n * (q - d) == n * q - n * d;
  }

  /** A frame is queued if and only if some socket of the app is open with room for it, on
      the first such socket from the rotation's start, at the end of its queue, and nowhere
      else. The rotation moves on by one whenever the app has a socket at all. */
  lemma SendReaches(s: Sending, app: nat, f: Frame)
    ensures CanReach(s, app) <==>
      app in s.sockets && exists x <- s.sockets[app] :: !x.closed && |x.queue| < 256
    ensures CanReach(s, app) <==> SendTo(s, app, f).sockets != s.sockets
    ensures CanReach(s, app) ==>
      exists o: nat :: o < |s.sockets[app]| && var list := s.sockets[app]; var i := Turn(list, s.next, o);
        && i == (s.next + o) % |list|
        && (forall p: nat :: p < o ==>
              (var x := list[Turn(list, s.next, p)]; x.closed || |x.queue| >= 256))
        && !list[i].closed && |list[i].queue| < 256
        && SendTo(s, app, f).sockets
           == s.sockets[app := list[i := Socket(list[i].id, list[i].queue + [f], false)]]
    ensures SendTo(s, app, f).next == if app in s.sockets && s.sockets[app] != [] then s.next + 1 else s.next
  {
    if app in s.sockets && s.sockets[app] != [] {
      var list := s.sockets[app];
      var n := Skips(list, s.next, 0);
      if n < |list| {
        var i := Turn(list, s.next, n);
        assert |Push(list[i], f).queue| == |list[i].queue| + 1;
        assert SendTo(s, app, f).sockets[app][i] == Push(list[i], f);
        assert HasRoom(list[i]) && list[i] in list;
      } else {
        forall i: nat | i < |list| ensures !HasRoom(list[i]) { var o := TurnsCover(list, s.next, i); }
      }
    }
  }

  function Repeat(s: Sending, app: nat, frames: seq<Frame>): Sending {
    if frames == [] then s else
      SendTo(Repeat(s, app, frames[..|frames| - 1]), app, frames[|frames| - 1])
  }

  /** While every socket has room, successive frames go round: of up to as many
      frames as sockets, each lands on its own socket, in turn. */
  lemma {:induction false} RotationIsFair(s: Sending, app: nat, frames: seq<Frame>)
    requires app in s.sockets && s.sockets[app] != [] && |frames| <= |s.sockets[app]|
    requires forall x <- s.sockets[app] :: HasRoom(x)
    ensures var list := s.sockets[app];
      var after := Repeat(s, app, frames);
      && after.next == s.next + |frames| && app in after.sockets && |after.sockets[app]| == |list|
      && (forall k: nat :: k < |frames| ==>
            var i := Turn(list, s.next, k); after.sockets[app][i] == Push(list[i], frames[k]))
      && (forall k: nat :: |frames| <= k < |list| ==>
            var i := Turn(list, s.next, k); after.sockets[app][i] == list[i])
  {
    if frames != [] {
      var k := |frames| - 1;
      var list := s.sockets[app];
      RotationIsFair(s, app, frames[..k]);
      var mid := Repeat(s, app, frames[..k]);
      assert Turn(mid.sockets[app], mid.next, 0) == Turn(list, s.next, k);
      assert mid.sockets[app][Turn(list, s.next, k)] == list[Turn(list, s.next, k)];
      forall p: nat | p < |list| && p != k
        ensures Turn(list, s.next, p) != Turn(list, s.next, k)
      {
        if p < k { TurnsDiffer(|list|, s.next + p, s.next + k); }
        else { TurnsDiffer(|list|, s.next + k, s.next + p); }
      }
    }
  }

  // ---- Where a batch of envelopes ends up ----

  /** What stands on a queue beyond what stood there before. */
  function Gained(before: Socket, after: Socket): seq<Frame> {
    if |before.queue| <= |after.queue| then after.queue[|before.queue|..] else []
  }

  function AllGained(before: seq<Socket>, after: seq<Socket>): multiset<Frame>
    requires |before| == |after|
  {
    if before == [] then multiset{}
    else
      var n := |before| - 1;
      AllGained(before[..n], after[..n]) + multiset(Gained(before[n], after[n]))
  }

  /** The frames for one app: its rows among those taken, each numbered by the attempts
      made before the claim, which `rows` are the rows of. */
  function FramesFor(rows: map<Id, Row>, ids: seq<Id>, app: nat): multiset<Frame>
    requires forall id <- ids :: id in rows
  {
    if ids == [] then multiset{}
    else
      var id := ids[|ids| - 1];
      FramesFor(rows, ids[..|ids| - 1], app)
      + if rows[id].app == app then multiset{Frame(id, rows[id].attempts)} else multiset{}
  }

  /** Same sockets in the same places, each queue only longer at its end. */
  predicate Grown(before: seq<Socket>, after: seq<Socket>) {
    |after| == |before| && forall i :: 0 <= i < |before| ==>
      after[i].id == before[i].id && after[i].closed == before[i].closed && before[i].queue <= after[i].queue
  }

  /** Some socket takes so many frames more. */
  predicate Roomy(list: seq<Socket>, n: nat) {
    exists i :: 0 <= i < |list| && !list[i].closed && |list[i].queue| + n <= 256
  }

  /** The sockets of one app have gained some of the frames wanted, each once, and all of
      them where one socket alone has room for all. */
  ghost predicate SpreadOver(before: seq<Socket>, after: seq<Socket>, wanted: multiset<Frame>) {
    && Grown(before, after)
    && AllGained(before, after) <= wanted
    && (Roomy(before, |wanted|) ==> AllGained(before, after) == wanted)
    && (wanted == multiset{} ==> after == before)
    && forall i :: 0 <= i < |before| ==> |after[i].queue| <= |before[i].queue| + |wanted|
  }

  /** Every app's sockets have gained frames of its own envelopes only. */
  ghost predicate Spread(
    before: map<nat, seq<Socket>>, after: map<nat, seq<Socket>>, rows: map<Id, Row>, ids: seq<Id>)
    requires forall id <- ids :: id in rows
  {
    && after.Keys == before.Keys
    && forall a <- before :: SpreadOver(before[a], after[a], FramesFor(rows, ids, a))
  }

  lemma {:induction false} NothingGained(list: seq<Socket>)
    ensures AllGained(list, list) == multiset{}
  {
    if list != [] { NothingGained(list[..|list| - 1]); }
  }

  /** One more frame at the end of one queue. */
  lemma {:induction false} OneGained(before: seq<Socket>, after: seq<Socket>, i: nat, f: Frame)
    requires Grown(before, after) && i < |after|
    ensures Grown(before, after[i := Push(after[i], f)])
    ensures AllGained(before, after[i := Push(after[i], f)]) == AllGained(before, after) + multiset{f}
  {
    var more, n := after[i := Push(after[i], f)], |before| - 1;
    if i == n {
      assert more[..n] == after[..n];
      assert Gained(before[n], more[n]) == Gained(before[n], after[n]) + [f];
    } else {
      OneGained(before[..n], after[..n], i, f);
      assert more[..n] == after[..n][i := Push(after[i], f)];
    }
  }

  /** One send, on one app's list. */
  lemma SendGains(s: Sending, before: seq<Socket>, app: nat, f: Frame)
    requires app in s.sockets && Grown(before, s.sockets[app])
    ensures var after := SendTo(s, app, f).sockets;
      && after.Keys == s.sockets.Keys && (forall a <- after :: a != app ==> after[a] == s.sockets[a])
      && Grown(before, after[app])
      && AllGained(before, after[app])
         == AllGained(before, s.sockets[app]) + (if CanReach(s, app) then multiset{f} else multiset{})
      && forall i :: 0 <= i < |before| ==> |after[app][i].queue| <= |s.sockets[app][i].queue| + 1
  {
    SendReaches(s, app, f);
    hide SendTo, AllGained, Skips, Turn;
    var list := s.sockets[app];
    if CanReach(s, app) {
      var o: nat :| o < |list| && SendTo(s, app, f).sockets
        == s.sockets[app := list[Turn(list, s.next, o) := Push(list[Turn(list, s.next, o)], f)]];
      OneGained(before, list, Turn(list, s.next, o), f);
    }
  }

  lemma SendElsewhere(s: Sending, app: nat, f: Frame)
    requires app !in s.sockets
    ensures SendTo(s, app, f) == s
  {
  }

  /** `now` are the rows `rows` have become by the claim of some of them. */
  predicate Counted(rows: map<Id, Row>, now: map<Id, Row>, ids: seq<Id>) {
    forall id <- ids ::
      id in rows && id in now && now[id].app == rows[id].app && now[id].attempts == rows[id].attempts + 1
  }

  lemma {:induction false} SendAllSpreads(s: Sending, rows: map<Id, Row>, now: map<Id, Row>, ids: seq<Id>)
    requires Counted(rows, now, ids)
    ensures Spread(s.sockets, SendAll(s, now, ids).sockets, rows, ids)
  {
    hide SendTo, Spread, Counted;
    if ids == [] {
      NothingSpreads(s, rows);
    } else {
      CountedFewer(rows, now, ids);
      var init, id := ids[..|ids| - 1], ids[|ids| - 1];
      SendAllSpreads(s, rows, now, init);
      SendOneMore(s, SendAll(s, now, init), rows, init, id);
      assert ids == init + [id] && id in ids;
    }
  }

  lemma NothingSpreads(s: Sending, rows: map<Id, Row>)
    ensures Spread(s.sockets, s.sockets, rows, [])
  {
    forall a <- s.sockets ensures SpreadOver(s.sockets[a], s.sockets[a], multiset{}) { NothingGained(s.sockets[a]); }
  }

  lemma CountedFewer(rows: map<Id, Row>, now: map<Id, Row>, ids: seq<Id>)
    requires Counted(rows, now, ids) && ids != []
    ensures var init, id := ids[..|ids| - 1], ids[|ids| - 1];
      && Counted(rows, now, init) && (forall j <- ids :: j in rows && j in now)
      && now[id].app == rows[id].app && now[id].attempts == rows[id].attempts + 1
  {
    assert ids[|ids| - 1] in ids;
  }

  lemma OneMoreFrame(rows: map<Id, Row>, init: seq<Id>, id: Id, app: nat)
    requires (forall j <- init :: j in rows) && id in rows
    ensures FramesFor(rows, init + [id], app)
         == FramesFor(rows, init, app)
            + (if rows[id].app == app then multiset{Frame(id, rows[id].attempts)} else multiset{})
  {
    assert (init + [id])[..|init|] == init;
  }

  lemma SendOneMore(s: Sending, mid: Sending, rows: map<Id, Row>, init: seq<Id>, id: Id)
    requires (forall j <- init :: j in rows) && id in rows && Spread(s.sockets, mid.sockets, rows, init)
    ensures Spread(s.sockets, SendTo(mid, rows[id].app, Frame(id, rows[id].attempts)).sockets, rows, init + [id])
  {
    hide SendTo, SpreadOver, FramesFor;
    var app, f := rows[id].app, Frame(id, rows[id].attempts);
    if app in mid.sockets {
      SendSpreads(mid, s.sockets[app], app, f, FramesFor(rows, init, app));
    } else {
      SendElsewhere(mid, app, f);
    }
    forall a <- s.sockets
      ensures SpreadOver(s.sockets[a], SendTo(mid, app, f).sockets[a], FramesFor(rows, init + [id], a))
    {
      OneMoreFrame(rows, init, id, a);
      assert a != app ==> FramesFor(rows, init, a) + multiset{} == FramesFor(rows, init, a);
    }
  }

  lemma SendSpreads(s: Sending, before: seq<Socket>, app: nat, f: Frame, wanted: multiset<Frame>)
    requires app in s.sockets && SpreadOver(before, s.sockets[app], wanted)
    ensures var after := SendTo(s, app, f).sockets;
      && after.Keys == s.sockets.Keys && (forall a <- after :: a != app ==> after[a] == s.sockets[a])
      && SpreadOver(before, after[app], wanted + multiset{f})
  {
    hide SendTo, AllGained, CanReach, Grown, Roomy, HasRoom;
    SendGains(s, before, app, f);
    RoomyReaches(s, before, app, |wanted|);
    GrownAlong(before, s.sockets[app]);
    assert |wanted + multiset{f}| == |wanted| + 1;
  }

  lemma GrownAlong(before: seq<Socket>, after: seq<Socket>)
    ensures Grown(before, after) ==> |after| == |before|
  {
  }

  /** A socket with room for one frame more than were sent can still be reached. */
  lemma RoomyReaches(s: Sending, before: seq<Socket>, app: nat, sent: nat)
    requires app in s.sockets && Grown(before, s.sockets[app])
    requires forall i :: 0 <= i < |before| ==> |s.sockets[app][i].queue| <= |before[i].queue| + sent
    ensures Roomy(before, sent + 1) ==> CanReach(s, app) && Roomy(before, sent)
  {
    if Roomy(before, sent + 1) {
      var i :| 0 <= i < |before| && !before[i].closed && |before[i].queue| + sent + 1 <= 256;
      assert HasRoom(s.sockets[app][i]);
    }
  }

  function Where(list: seq<Socket>, keep: Socket -> bool): (r: seq<Socket>)
    ensures forall s :: s in r <==> s in list && keep(s)
  {
    if list == [] then []
    else (if keep(list[0]) then [list[0]] else []) + Where(list[1..], keep)
  }

  /** What is kept is kept in its order. */
  lemma {:induction false} WhereSplits(a: seq<Socket>, b: seq<Socket>, s: Socket, keep: Socket -> bool)
    ensures Where(a + b, keep) == Where(a, keep) + Where(b, keep)
    ensures Where([s], keep) == if keep(s) then [s] else []
  {
    assert [s][1..] == [];
    if a == [] {
      assert a + b == b;
    } else {
      var rest, joined := a[1..], a + b;
      assert joined[0] == a[0] && joined[1..] == rest + b;
      WhereSplits(rest, b, s, keep);
      Reassociate(if keep(a[0]) then [a[0]] else [], Where(rest, keep), Where(b, keep));
    }
  }

  class Deliveries {
    var rows: map<Id, Row>

    /** The update half of a claim: row by row, in whatever order. */
    method Take(c: Claim) returns (taken: seq<Id>)
      modifies this
      ensures rows == ClaimRows(old(rows), c)
      ensures forall id :: id in taken <==> Takes(old(rows), c, id)
      ensures forall i, j :: 0 <= i < j < |taken| ==> taken[i] != taken[j]
    {
      taken := [];
      var rest := rows.Keys;
      while rest != {}
        invariant rest <= rows.Keys == old(rows).Keys
        invariant forall id <- rest :: rows[id] == old(rows)[id]
        invariant forall id <- rows :: id !in rest ==> rows[id] == ClaimRows(old(rows), c)[id]
        invariant forall id :: id in taken <==> Takes(old(rows), c, id) && id !in rest
        invariant forall i, j :: 0 <= i < j < |taken| ==> taken[i] != taken[j]
      {
        var id :| id in rest;
        if id in c.picked && Claimable(rows[id], c.at) {
          rows := rows[id := Leased(rows[id], c.at)];
          taken := taken + [id];
        }
        rest := rest - {id};
      }
    }

    method Acknowledge(app: nat, id: Id)
      modifies this
      ensures rows == AckRow(old(rows), app, id) && rows.Keys == old(rows).Keys
      ensures forall j <- rows :: rows[j].delivered <==> old(rows)[j].delivered || (j == id && rows[j].app == app)
      ensures forall j <- rows :: Pending(rows[j]) ==> rows[j] == old(rows)[j]
    {
      if id in rows && rows[id].app == app && !rows[id].delivered {
        rows := rows[id := rows[id].(delivered := true, leasedUntil := None)];
      }
    }
  }

  class Sockets {
    var sockets: map<nat, seq<Socket>>
    var next: nat

    ghost predicate Valid()
      reads this
    {
      forall a <- sockets :: sockets[a] != []
    }

    ghost function State(): Sending
      reads this
    {
      Sending(sockets, next)
    }

    constructor ()
      ensures Valid() && State() == Sending(map[], 0)
    {
      sockets, next := map[], 0;
    }

    method Add(app: nat, s: Socket)
      requires Valid()
      modifies this`sockets
      ensures Valid()
      ensures sockets == old(sockets)[app := (if app in old(sockets) then old(sockets)[app] else []) + [s]]
    {
      var list := if app in sockets then sockets[app] else [];
      sockets := sockets[app := list + [s]];
    }

    method Remove(app: nat, id: nat)
      requires Valid()
      modifies this`sockets
      ensures Valid()
      ensures sockets - {app} == old(sockets) - {app}
      ensures app in sockets <==> app in old(sockets) && exists s <- old(sockets)[app] :: s.id != id
      ensures app in sockets ==> sockets[app] == Where(old(sockets)[app], (s: Socket) => s.id != id)
    {
      if app in sockets {
        var list := Where(sockets[app], (s: Socket) => s.id != id);
        if list == [] {
          assert forall s <- sockets[app] :: s.id != id ==> s in list;
          sockets := sockets - {app};
        } else {
          assert list[0] in list;
          sockets := sockets[app := list];
        }
      }
    }

    /** Lets go of every socket the table no longer knows, and of apps left with none. */
    method CheckAlive(alive: set<nat>)
      requires Valid()
      modifies this`sockets
      ensures Valid()
      ensures forall a :: a in sockets <==> a in old(sockets) && exists s <- old(sockets)[a] :: s.id in alive
      ensures forall a <- sockets :: sockets[a] == Where(old(sockets)[a], (s: Socket) => s.id in alive)
    {
      var rest := sockets.Keys;
      while rest != {}
        invariant rest <= sockets.Keys <= old(sockets).Keys
        invariant forall a <- rest :: sockets[a] == old(sockets)[a]
        invariant forall a <- old(sockets) :: a !in rest ==>
          (a in sockets <==> exists s <- old(sockets)[a] :: s.id in alive)
        invariant forall a <- sockets :: a !in rest ==>
          sockets[a] != [] && sockets[a] == Where(old(sockets)[a], (s: Socket) => s.id in alive)
      {
        var a :| a in rest;
        var list := Where(sockets[a], (s: Socket) => s.id in alive);
        if list == [] {
          assert forall s <- sockets[a] :: s.id in alive ==> s in list;
          sockets := sockets - {a};
        } else {
          assert list[0] in list;
          sockets := sockets[a := list];
        }
        rest := rest - {a};
      }
    }

    method SendToApp(app: nat, f: Frame) returns (ok: bool)
      modifies this
      ensures State() == SendTo(old(State()), app, f)
      ensures ok <==> CanReach(old(State()), app)
    {
      if app !in sockets || sockets[app] == [] {
        return false;
      }
      SendReaches(State(), app, f);
      var list := sockets[app];
      var start := next;
      next := next + 1;
      var offset := 0;
      while offset < |list|
        invariant offset <= |list|
        invariant Skips(list, start, offset) == Skips(list, start, 0)
        invariant sockets == old(sockets) && next == start + 1
      {
        var i := Turn(list, start, offset);
        if HasRoom(list[i]) {
          sockets := sockets[app := list[i := Push(list[i], f)]];
          assert HasRoom(old(sockets)[app][i]);
          return true;
        }
        offset := offset + 1;
      }
      return false;
    }

    /** Claims and sends: every envelope the claim took is offered once, numbered
        by the attempts made before. */
    method DeliverOnce(table: Deliveries, c: Claim) returns (count: nat, taken: seq<Id>)
      modifies this, table
      ensures table.rows == ClaimRows(old(table.rows), c)
      ensures forall id :: id in taken <==> Takes(old(table.rows), c, id)
      ensures forall id <- taken :: id in table.rows
      ensures count == |taken| && forall i, j :: 0 <= i < j < |taken| ==> taken[i] != taken[j]
      ensures State() == SendAll(old(State()), table.rows, taken)
      ensures forall id <- taken :: id in old(table.rows)
      ensures Spread(old(sockets), sockets, old(table.rows), taken)
    {
      taken := table.Take(c);
      var k := 0;
      while k < |taken|
        invariant k <= |taken|
        invariant table.rows == ClaimRows(old(table.rows), c)
        invariant forall id <- taken :: id in table.rows
        invariant State() == SendAll(old(State()), table.rows, taken[..k])
      {
        var id := taken[k];
        var row := table.rows[id];
        var sent := SendToApp(row.app, Frame(id, row.attempts - 1));
        assert taken[..k + 1][..k] == taken[..k];
        k := k + 1;
      }
      assert taken[..k] == taken;
      SendAllSpreads(old(State()), old(table.rows), table.rows, taken);
      count := |taken|;
    }
  }
}
