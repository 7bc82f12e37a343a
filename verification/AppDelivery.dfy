/**
 Deliveries to apps: one table, any number of gateways. A gateway's claim is one
 SQL statement, but its snapshot and its row updates are two steps here, so that
 other gateways, acknowledgements and the expiry sweep may run in between; the
 statement's own clock is the moment of its snapshot. Times are microseconds.
 */
module AppDelivery {
  import opened Options

  type Id = nat
  type GatewayId = nat

  const LEASE := 3_000_000
  const BATCH := 100

  datatype Row = Row(
    app: nat, channel: nat, seqNo: nat, created: int, expires: int,
    attempts: nat, leasedUntil: Option<int>, delivered: bool, failed: bool)

  datatype Claim = Claim(at: int, picked: set<Id>)

  /** `history` keeps, per row, the clock of every claim that took it. */
  datatype Db = Db(
    rows: map<Id, Row>, inFlight: map<GatewayId, Claim>, history: map<Id, seq<int>>, now: int)

  datatype Step =
    | Insert(id: Id, app: nat, channel: nat, seqNo: nat, ttl: nat)
    | Begin(g: GatewayId, apps: set<nat>, socketMode: set<nat>, picked: set<Id>)
    | Finish(g: GatewayId)
    | Ack(app: nat, id: Id)
    | Sweep
    | Tick(to: int)

  predicate Pending(r: Row) { !r.delivered && !r.failed }

  predicate SameGroup(a: Row, b: Row) { a.app == b.app && a.channel == b.channel }

  predicate Before(a: Row, b: Row) { SameGroup(a, b) && a.seqNo < b.seqNo }

  predicate LeaseFree(r: Row, now: int) { r.leasedUntil.None? || r.leasedUntil.value < now }

  /** The first pending row of its app and channel, by sequence number. */
  predicate Head(rows: map<Id, Row>, id: Id) {
    && id in rows && Pending(rows[id])
    && forall j <- rows :: Pending(rows[j]) && SameGroup(rows[j], rows[id]) ==> rows[id].seqNo <= rows[j].seqNo
  }

  predicate Due(rows: map<Id, Row>, apps: set<nat>, socketMode: set<nat>, id: Id, now: int) {
    && Head(rows, id) && rows[id].app in apps && rows[id].app in socketMode
    && rows[id].expires > now && LeaseFree(rows[id], now)
  }

  /** What the update checks again on the current version of the row. */
  predicate Claimable(r: Row, at: int) { !r.delivered && LeaseFree(r, at) }

  predicate Takes(rows: map<Id, Row>, c: Claim, id: Id) {
    id in rows && id in c.picked && Claimable(rows[id], c.at)
  }

  function Leased(r: Row, at: int): Row {
    r.(leasedUntil := Some(at + LEASE), attempts := r.attempts + 1)
  }

  function ClaimRows(rows: map<Id, Row>, c: Claim): map<Id, Row> {
    map id | id in rows :: if Takes(rows, c, id) then Leased(rows[id], c.at) else rows[id]
  }

  function Claims(history: map<Id, seq<int>>, id: Id): seq<int> {
    if id in history then history[id] else []
  }

  function Recorded(rows: map<Id, Row>, history: map<Id, seq<int>>, c: Claim): map<Id, seq<int>> {
    map id | id in rows ::
      if Takes(rows, c, id) then Claims(history, id) + [c.at] else Claims(history, id)
  }

  function AckRow(rows: map<Id, Row>, app: nat, id: Id): map<Id, Row> {
    if id in rows && rows[id].app == app && !rows[id].delivered
    then rows[id := rows[id].(delivered := true, leasedUntil := None)]
    else rows
  }

  predicate Swept(r: Row, now: int) { Pending(r) && r.expires <= now && LeaseFree(r, now) }

  function SweepRows(rows: map<Id, Row>, now: int): map<Id, Row> {
    map id | id in rows ::
      if Swept(rows[id], now) then rows[id].(failed := true, leasedUntil := None) else rows[id]
  }

  function NewRow(app: nat, channel: nat, seqNo: nat, ttl: nat, now: int): Row {
    Row(app, channel, seqNo, now, now + ttl, 0, None, false, false)
  }

  function Next(db: Db, s: Step): Db {
    match s
    case Insert(id, app, channel, seqNo, ttl) =>
      db.(rows := db.rows[id := NewRow(app, channel, seqNo, ttl, db.now)])
    case Begin(g, apps, socketMode, picked) =>
      db.(inFlight := db.inFlight[g := Claim(db.now, picked)])
    case Finish(g) =>
      if g !in db.inFlight then db else
      var c := db.inFlight[g];
      db.(rows := ClaimRows(db.rows, c), history := Recorded(db.rows, db.history, c),
          inFlight := db.inFlight - {g})
    case Ack(app, id) => db.(rows := AckRow(db.rows, app, id))
    case Sweep => db.(rows := SweepRows(db.rows, db.now))
    case Tick(to) => db.(now := to)
  }

  predicate Possible(db: Db, s: Step) {
    match s
    case Insert(id, app, channel, seqNo, ttl) =>
      id !in db.rows && forall j <- db.rows :: db.rows[j].seqNo != seqNo
    case Begin(g, apps, socketMode, picked) =>
      && g !in db.inFlight && |picked| <= BATCH
      && forall id <- picked :: Due(db.rows, apps, socketMode, id, db.now)
    case Finish(g) => g in db.inFlight
    case Tick(to) => db.now <= to
    case _ => true
  }

  // ---- Order ----

  predicate InHand(db: Db, id: Id) { exists g <- db.inFlight :: id in db.inFlight[g].picked }

  /** Claimed at least once, or about to be. */
  predicate Started(db: Db, id: Id)
    requires id in db.rows
  {
    db.rows[id].attempts > 0 || InHand(db, id)
  }

  /** Only the head of a group has been started. */
  predicate Fifo(db: Db) {
    forall i <- db.rows, j <- db.rows ::
      Before(db.rows[i], db.rows[j]) && Pending(db.rows[i]) && Pending(db.rows[j]) ==> !Started(db, j)
  }

  predicate Tidy(db: Db) {
    && (forall i <- db.rows, j <- db.rows :: i != j ==> db.rows[i].seqNo != db.rows[j].seqNo)
    && (forall i <- db.rows :: db.rows[i].leasedUntil.Some? ==> db.rows[i].attempts > 0)
  }

  /** No pending row of the group with a higher number has been started yet. */
  predicate InOrder(db: Db, s: Step) {
    s.Insert? ==> forall j <- db.rows ::
      Before(NewRow(s.app, s.channel, s.seqNo, s.ttl, db.now), db.rows[j]) && Pending(db.rows[j])
      ==> !Started(db, j)
  }

  /** Numbers are drawn before rows become visible, so an insert can be late: it
      keeps the order exactly when no later row of its group has been started. */
  lemma InsertKeepsFifoIff(db: Db, s: Step)
    requires s.Insert? && Possible(db, s) && Tidy(db) && Fifo(db) && PicksKnown(db)
    ensures Fifo(Next(db, s)) <==> InOrder(db, s)
  {
    var after := Next(db, s);
    forall j <- db.rows ensures Started(after, j) == Started(db, j) {}
    if Fifo(after) {
      forall j <- db.rows | Before(after.rows[s.id], db.rows[j]) && Pending(db.rows[j])
        ensures !Started(db, j)
      {
        assert Before(after.rows[s.id], after.rows[j]);
      }
    }
    if InOrder(db, s) {
      assert !InHand(after, s.id);
      forall i <- after.rows, j <- after.rows
        | Before(after.rows[i], after.rows[j]) && Pending(after.rows[i]) && Pending(after.rows[j])
        ensures !Started(after, j)
      {
        if j != s.id && i != s.id { assert Before(db.rows[i], db.rows[j]); }
      }
    }
  }

  /** A claim takes a pending row only when everything before it is settled, even
      though the snapshot it works from may be old. */
  lemma ClaimedAtHeadOnly(db: Db, g: GatewayId, id: Id, j: Id)
    requires Fifo(db) && g in db.inFlight
    requires Takes(db.rows, db.inFlight[g], id) && Pending(db.rows[id])
    requires j in db.rows && Before(db.rows[j], db.rows[id])
    ensures !Pending(db.rows[j])
  {
    assert InHand(db, id);
  }

  lemma OneLiveLease(db: Db, i: Id, j: Id)
    requires Tidy(db) && Fifo(db) && i in db.rows && j in db.rows
    requires SameGroup(db.rows[i], db.rows[j]) && Pending(db.rows[i]) && Pending(db.rows[j])
    requires db.rows[i].leasedUntil.Some? && db.rows[j].leasedUntil.Some?
    ensures i == j
  {
    var (low, high) := if db.rows[i].seqNo <= db.rows[j].seqNo then (i, j) else (j, i);
    assert Before(db.rows[low], db.rows[high]) ==> !Started(db, high);
  }

  /** Claims under way are of rows in the table. */
  predicate PicksKnown(db: Db) { forall g <- db.inFlight :: db.inFlight[g].picked <= db.rows.Keys }

  lemma StepKeepsPicks(db: Db, s: Step)
    requires Possible(db, s) && PicksKnown(db)
    ensures PicksKnown(Next(db, s))
  {
    if s.Begin? { assert forall id <- s.picked :: Head(db.rows, id); }
  }

  lemma StepKeepsTidy(db: Db, s: Step)
    requires Possible(db, s) && Tidy(db)
    ensures Tidy(Next(db, s))
  {
  }

  lemma StepKeepsFifo(db: Db, s: Step)
    requires Possible(db, s) && Tidy(db) && Fifo(db) && InOrder(db, s) && PicksKnown(db)
    ensures Fifo(Next(db, s))
  {
    var after := Next(db, s);
    if s.Insert? {
      InsertKeepsFifoIff(db, s);
    } else {
      forall i <- after.rows, j <- after.rows
        | Before(after.rows[i], after.rows[j]) && Pending(after.rows[i]) && Pending(after.rows[j])
        ensures !Started(after, j)
      {
        assert Before(db.rows[i], db.rows[j]);
        if Started(after, j) { StartedWasDue(db, s, i, j); }
      }
    }
  }

  /** A row that a step starts, or finds started, has nothing pending before it. */
  lemma StartedWasDue(db: Db, s: Step, i: Id, j: Id)
    requires Possible(db, s) && Fifo(db) && !s.Insert?
    requires i in db.rows && j in db.rows && Before(db.rows[i], db.rows[j])
    requires Pending(db.rows[i]) && Pending(db.rows[j])
    ensures !Started(Next(db, s), j)
  {
    assert !Started(db, j);
    assert s.Begin? ==> forall k <- s.picked :: Head(db.rows, k);
    assert InHand(Next(db, s), j) ==> InHand(db, j);
    if s.Finish? { assert !(j in db.inFlight[s.g].picked); }
  }

  // ---- Retry spacing ----

  /** Claims of one row: not before it exists, not once it has expired, and any
      two more than a lease apart. */
  predicate Spaced(h: seq<int>, created: int, expires: int) {
    && (h != [] ==> h[0] >= created && h[|h| - 1] < expires)
    && forall i, j :: 0 <= i < j < |h| ==> h[j] > h[i] + LEASE
  }

  /** A claim of the row, begun within the lease of its last claim, is under way. */
  predicate Slow(db: Db, id: Id) {
    var h := Claims(db.history, id);
    h != [] && exists g <- db.inFlight ::
      id in db.inFlight[g].picked && db.inFlight[g].at <= h[|h| - 1] + LEASE
  }

  /** An undelivered row that was claimed still carries that lease, unless the
      sweep took it away. */
  predicate RowFits(r: Row, h: seq<int>, slow: bool, now: int) {
    && |h| == r.attempts && Spaced(h, r.created, r.expires) && r.created <= now
    && if h == [] then r.leasedUntil.None?
       else r.delivered || r.leasedUntil == Some(h[|h| - 1] + LEASE)
            || (r.failed && r.leasedUntil.None? && !slow)
  }

  predicate RowKept(db: Db, id: Id)
    requires id in db.rows
  {
    RowFits(db.rows[id], Claims(db.history, id), Slow(db, id), db.now)
  }

  predicate PicksFit(db: Db) {
    forall g <- db.inFlight, id <- db.inFlight[g].picked ::
      id in db.rows && db.rows[id].created <= db.inFlight[g].at < db.rows[id].expires
  }

  predicate RetryInv(db: Db) {
    && db.history.Keys <= db.rows.Keys && PicksFit(db)
    && forall id <- db.rows :: RowKept(db, id)
  }

  /** The sweep finds no claim of a row still under way from within its lease. */
  predicate NoClaimOvertaken(db: Db, s: Step) {
    s.Sweep? ==> forall id <- db.rows :: Swept(db.rows[id], db.now) ==> !Slow(db, id)
  }

  lemma InsertKeepsRetry(db: Db, s: Step)
    requires s.Insert? && Possible(db, s) && RetryInv(db)
    ensures RetryInv(Next(db, s))
  {
    var after := Next(db, s);
    forall id <- after.rows ensures RowKept(after, id) {
      if id != s.id { assert RowKept(db, id); }
    }
  }

  lemma BeginKeepsRetry(db: Db, s: Step)
    requires s.Begin? && Possible(db, s) && RetryInv(db)
    ensures RetryInv(Next(db, s))
  {
    var after := Next(db, s);
    forall id <- after.rows ensures RowKept(after, id) {
      assert RowKept(db, id);
      if id in s.picked { assert Due(db.rows, s.apps, s.socketMode, id, db.now); }
    }
  }

  /** What a claim that is allowed to take the row does to its record. */
  lemma TakeFits(r: Row, h: seq<int>, slow: bool, after: bool, now: int, at: int)
    requires RowFits(r, h, slow, now) && Claimable(r, at) && r.created <= at < r.expires
    requires h != [] && at <= h[|h| - 1] + LEASE ==> slow
    ensures RowFits(Leased(r, at), h + [at], after, now)
  {
    if h != [] {
      assert at > h[|h| - 1] + LEASE;
      forall i | 0 <= i < |h| ensures at > h[i] + LEASE {}
    }
  }

  lemma FinishKeepsRow(db: Db, g: GatewayId, id: Id)
    requires RetryInv(db) && g in db.inFlight && id in db.rows
    ensures RowKept(Next(db, Finish(g)), id)
  {
    assert RowKept(db, id);
    var c, r, h := db.inFlight[g], db.rows[id], Claims(db.history, id);
    var after := Next(db, Finish(g));
    if Takes(db.rows, c, id) {
      TakeFits(r, h, Slow(db, id), Slow(after, id), db.now, c.at);
    } else {
      assert Claims(after.history, id) == h && after.rows[id] == r;
    }
  }

  lemma FinishKeepsRetry(db: Db, s: Step)
    requires s.Finish? && Possible(db, s) && RetryInv(db)
    ensures RetryInv(Next(db, s))
  {
    forall id <- db.rows ensures RowKept(Next(db, s), id) { FinishKeepsRow(db, s.g, id); }
    assert Next(db, s).rows.Keys == db.rows.Keys;
  }

  lemma SweepKeepsRetry(db: Db)
    requires RetryInv(db) && NoClaimOvertaken(db, Sweep)
    ensures RetryInv(Next(db, Sweep))
  {
    var after := Next(db, Sweep);
    forall id <- after.rows ensures RowKept(after, id) { assert RowKept(db, id); }
  }

  lemma StepKeepsRetry(db: Db, s: Step)
    requires Possible(db, s) && RetryInv(db) && NoClaimOvertaken(db, s)
    ensures RetryInv(Next(db, s))
  {
    match s
    case Insert(_, _, _, _, _) => InsertKeepsRetry(db, s);
    case Begin(_, _, _, _) => BeginKeepsRetry(db, s);
    case Finish(_) => FinishKeepsRetry(db, s);
    case Sweep => SweepKeepsRetry(db);
    case _ =>
      var after := Next(db, s);
      forall id <- after.rows ensures RowKept(after, id) { assert RowKept(db, id); }
  }

  // ---- What late inserts and early sweeps cost ----

  /** No row behind the head of its group has been claimed. */
  predicate HeadsOnly(db: Db) {
    forall id <- db.rows :: Pending(db.rows[id]) && !Head(db.rows, id) ==> db.rows[id].attempts == 0
  }

  /** None has been, and none will be by a claim now under way. */
  predicate OrderHolds(db: Db) {
    HeadsOnly(db) && forall g <- db.inFlight :: HeadsOnly(Next(db, Finish(g)))
  }

  lemma FifoHeadsOnly(db: Db)
    requires Fifo(db)
    ensures HeadsOnly(db)
  {
    forall id <- db.rows | Pending(db.rows[id]) && !Head(db.rows, id) ensures db.rows[id].attempts == 0 {
      var j :| j in db.rows && Pending(db.rows[j]) && SameGroup(db.rows[j], db.rows[id])
               && db.rows[j].seqNo < db.rows[id].seqNo;
      assert Before(db.rows[j], db.rows[id]) && !Started(db, id);
    }
  }

  lemma FifoHolds(db: Db)
    requires Fifo(db) && Tidy(db) && PicksKnown(db)
    ensures OrderHolds(db)
  {
    FifoHeadsOnly(db);
    forall g <- db.inFlight ensures HeadsOnly(Next(db, Finish(g))) {
      StepKeepsFifo(db, Finish(g));
      FifoHeadsOnly(Next(db, Finish(g)));
    }
  }

  lemma BehindPending(db: Db, i: Id, j: Id)
    requires i in db.rows && j in db.rows && Before(db.rows[i], db.rows[j])
    requires Pending(db.rows[i]) && Pending(db.rows[j]) && db.rows[j].attempts > 0
    ensures !HeadsOnly(db)
  {
    assert !Head(db.rows, j);
  }

  /** A started row that a late insert overtakes is claimed out of order, at once or
      when the claim under way is done. */
  lemma LateInsertBreaksOrder(db: Db, s: Step, j: Id)
    requires s.Insert? && Possible(db, s) && Tidy(db) && PicksKnown(db)
    requires j in db.rows && Pending(db.rows[j]) && Started(db, j)
    requires Before(NewRow(s.app, s.channel, s.seqNo, s.ttl, db.now), db.rows[j])
    ensures !OrderHolds(Next(db, s))
  {
    var after := Next(db, s);
    if db.rows[j].attempts > 0 {
      BehindPending(after, s.id, j);
    } else {
      var g :| g in db.inFlight && j in db.inFlight[g].picked;
      assert s.id !in db.inFlight[g].picked && Takes(after.rows, after.inFlight[g], j);
      BehindPending(Next(after, Finish(g)), s.id, j);
    }
  }

  /** An insert keeps every group's claims in order if and only if it is in order. */
  lemma InsertKeepsOrderIff(db: Db, s: Step)
    requires s.Insert? && Possible(db, s) && Tidy(db) && Fifo(db) && PicksKnown(db)
    ensures OrderHolds(Next(db, s)) <==> InOrder(db, s)
  {
    if InOrder(db, s) {
      InsertKeepsFifoIff(db, s);
      StepKeepsTidy(db, s);
      StepKeepsPicks(db, s);
      FifoHolds(Next(db, s));
    } else {
      var j :| j in db.rows && Pending(db.rows[j]) && Started(db, j)
               && Before(NewRow(s.app, s.channel, s.seqNo, s.ttl, db.now), db.rows[j]);
      LateInsertBreaksOrder(db, s, j);
    }
  }

  predicate AllSpaced(db: Db) {
    forall id <- db.rows :: Spaced(Claims(db.history, id), db.rows[id].created, db.rows[id].expires)
  }

  /** The claims of every envelope are spaced, and stay so with any claim under way. */
  predicate SpacingHolds(db: Db) {
    AllSpaced(db) && forall g <- db.inFlight :: AllSpaced(Next(db, Finish(g)))
  }

  lemma RetrySpaced(db: Db)
    requires RetryInv(db)
    ensures AllSpaced(db)
  {
    forall id <- db.rows ensures Spaced(Claims(db.history, id), db.rows[id].created, db.rows[id].expires) {
      assert RowKept(db, id);
    }
  }

  lemma RetryHolds(db: Db)
    requires RetryInv(db)
    ensures SpacingHolds(db)
  {
    RetrySpaced(db);
    forall g <- db.inFlight ensures AllSpaced(Next(db, Finish(g))) {
      FinishKeepsRetry(db, Finish(g));
      RetrySpaced(Next(db, Finish(g)));
    }
  }

  /** Clearing the lease of an expired row lets a slow claim take it again within three
      seconds of the last time. */
  lemma OvertakenClaimBreaksSpacing(db: Db, id: Id) returns (g: GatewayId)
    requires RetryInv(db) && id in db.rows && Swept(db.rows[id], db.now) && Slow(db, id)
    ensures g in db.inFlight
    ensures var after := Next(Next(db, Sweep), Finish(g));
      !Spaced(Claims(after.history, id), after.rows[id].created, after.rows[id].expires)
  {
    var h := Claims(db.history, id);
    g :| g in db.inFlight && id in db.inFlight[g].picked && db.inFlight[g].at <= h[|h| - 1] + LEASE;
    var swept := Next(db, Sweep);
    var c := db.inFlight[g];
    assert Takes(swept.rows, c, id);
    var claims := Claims(Next(swept, Finish(g)).history, id);
    assert claims == h + [c.at];
    assert claims[|h|] <= claims[|h| - 1] + LEASE;
  }

  /** The sweep keeps the claims spaced if and only if it overtakes none of them. */
  lemma SweepKeepsSpacingIff(db: Db)
    requires RetryInv(db)
    ensures SpacingHolds(Next(db, Sweep)) <==> NoClaimOvertaken(db, Sweep)
  {
    if NoClaimOvertaken(db, Sweep) {
      SweepKeepsRetry(db);
      RetryHolds(Next(db, Sweep));
    } else {
      var id :| id in db.rows && Swept(db.rows[id], db.now) && Slow(db, id);
      var g := OvertakenClaimBreaksSpacing(db, id);
      assert !AllSpaced(Next(Next(db, Sweep), Finish(g)));
    }
  }

  // ---- Whole runs ----

  const START := Db(map[], map[], map[], 0)

  function Run(db: Db, steps: seq<Step>): Db {
    if steps == [] then db else Next(Run(db, steps[..|steps| - 1]), steps[|steps| - 1])
  }

  predicate Legal(db: Db, steps: seq<Step>) {
    steps != [] ==>
      && Legal(db, steps[..|steps| - 1])
      && Possible(Run(db, steps[..|steps| - 1]), steps[|steps| - 1])
  }

  predicate InsertsInOrder(steps: seq<Step>) {
    steps != [] ==>
      InsertsInOrder(steps[..|steps| - 1]) && InOrder(Run(START, steps[..|steps| - 1]), steps[|steps| - 1])
  }

  predicate SweepsOvertakeNone(steps: seq<Step>) {
    steps != [] ==>
      && SweepsOvertakeNone(steps[..|steps| - 1])
      && NoClaimOvertaken(Run(START, steps[..|steps| - 1]), steps[|steps| - 1])
  }

  lemma {:induction false} FifoOverRuns(steps: seq<Step>)
    requires Legal(START, steps) && InsertsInOrder(steps)
    ensures var db := Run(START, steps); Tidy(db) && Fifo(db) && PicksKnown(db)
  {
    if steps != [] {
      var before := steps[..|steps| - 1];
      FifoOverRuns(before);
      var db := Run(START, before);
      StepKeepsPicks(db, steps[|steps| - 1]);
      StepKeepsTidy(db, steps[|steps| - 1]);
      StepKeepsFifo(db, steps[|steps| - 1]);
    }
  }

  /** In-order delivery: a row not at the head of its group has never been claimed,
      and no two pending rows of one group are out on a lease. */
  lemma DeliveryOrder(steps: seq<Step>)
    requires Legal(START, steps) && InsertsInOrder(steps)
    ensures var rows := Run(START, steps).rows;
      && (forall id <- rows :: Pending(rows[id]) && !Head(rows, id) ==> rows[id].attempts == 0)
      && (forall i <- rows, j <- rows ::
            (&& SameGroup(rows[i], rows[j]) && Pending(rows[i]) && Pending(rows[j])
             && rows[i].leasedUntil.Some? && rows[j].leasedUntil.Some?) ==> i == j)
  {
    FifoOverRuns(steps);
    var db := Run(START, steps);
    FifoHeadsOnly(db);
    forall i <- db.rows, j <- db.rows | SameGroup(db.rows[i], db.rows[j]) && Pending(db.rows[i])
      && Pending(db.rows[j]) && db.rows[i].leasedUntil.Some? && db.rows[j].leasedUntil.Some?
      ensures i == j
    {
      OneLiveLease(db, i, j);
    }
  }

  lemma {:induction false} RetryOverRuns(steps: seq<Step>)
    requires Legal(START, steps) && SweepsOvertakeNone(steps)
    ensures RetryInv(Run(START, steps))
  {
    if steps != [] {
      var before := steps[..|steps| - 1];
      RetryOverRuns(before);
      StepKeepsRetry(Run(START, before), steps[|steps| - 1]);
    }
  }

  /** The order holds at every moment of the run. */
  predicate AlwaysOrdered(steps: seq<Step>) {
    (steps != [] ==> AlwaysOrdered(steps[..|steps| - 1])) && OrderHolds(Run(START, steps))
  }

  /** In any run the order holds throughout if and only if the inserts are in order. */
  lemma {:induction false} OrderOverRunsIff(steps: seq<Step>)
    requires Legal(START, steps)
    ensures AlwaysOrdered(steps) <==> InsertsInOrder(steps)
  {
    hide OrderHolds, Next, InOrder, Possible, Fifo, Tidy, PicksKnown;
    if steps == [] {
      FifoOverRuns([]);
      FifoHolds(START);
    } else {
      var before, s := steps[..|steps| - 1], steps[|steps| - 1];
      OrderOverRunsIff(before);
      if InsertsInOrder(before) {
        FifoOverRuns(before);
        StepHoldsIff(Run(START, before), s);
      }
    }
  }

  lemma StepHoldsIff(db: Db, s: Step)
    requires Possible(db, s) && Tidy(db) && Fifo(db) && PicksKnown(db)
    ensures OrderHolds(Next(db, s)) <==> InOrder(db, s)
  {
    hide OrderHolds, Next, Possible, Fifo, Tidy, PicksKnown;
    if s.Insert? {
      InsertKeepsOrderIff(db, s);
    } else {
      StepKeepsFifo(db, s);
      StepKeepsTidy(db, s);
      StepKeepsPicks(db, s);
      FifoHolds(Next(db, s));
    }
  }

  predicate AlwaysSpaced(steps: seq<Step>) {
    (steps != [] ==> AlwaysSpaced(steps[..|steps| - 1])) && SpacingHolds(Run(START, steps))
  }

  /** And the claims stay spaced throughout if and only if no sweep overtakes one. */
  lemma {:induction false} SpacingOverRunsIff(steps: seq<Step>)
    requires Legal(START, steps)
    ensures AlwaysSpaced(steps) <==> SweepsOvertakeNone(steps)
  {
    hide SpacingHolds, Next, NoClaimOvertaken, Possible, RetryInv;
    if steps == [] {
      RetryOverRuns([]);
      RetryHolds(START);
    } else {
      var before, s := steps[..|steps| - 1], steps[|steps| - 1];
      SpacingOverRunsIff(before);
      if SweepsOvertakeNone(before) {
        RetryOverRuns(before);
        StepSpacesIff(Run(START, before), s);
      }
    }
  }

  lemma StepSpacesIff(db: Db, s: Step)
    requires Possible(db, s) && RetryInv(db)
    ensures SpacingHolds(Next(db, s)) <==> NoClaimOvertaken(db, s)
  {
    hide SpacingHolds, Next, Possible, RetryInv;
    if s.Sweep? {
      SweepKeepsSpacingIff(db);
    } else {
      StepKeepsRetry(db, s);
      RetryHolds(Next(db, s));
    }
  }

  lemma Extend(steps: seq<Step>, s: Step)
    requires Legal(START, steps) && Possible(Run(START, steps), s)
    ensures Legal(START, steps + [s]) && Run(START, steps + [s]) == Next(Run(START, steps), s)
  {
    assert (steps + [s])[..|steps|] == steps;
  }

  /** One more step of a run whose state is known. */
  lemma Further(steps: seq<Step>, db: Db, s: Step) returns (more: seq<Step>, after: Db)
    requires Legal(START, steps) && Run(START, steps) == db && Possible(db, s)
    ensures Legal(START, more) && Run(START, more) == after == Next(db, s)
  {
    Extend(steps, s);
    more, after := steps + [s], Next(db, s);
  }

  /** A run in which a row drawn earlier becomes visible after a later one was claimed. */
  lemma LateInsertArises() returns (steps: seq<Step>)
    ensures Legal(START, steps) && !HeadsOnly(Run(START, steps))
  {
    hide Run, Legal;
    var db := Begun();
    steps, db := Further([], START, Insert(1, 0, 0, 2, 10));
    var row := NewRow(0, 0, 2, 10, 0);
    assert db.rows == map[1 := row];
    steps, db := Further(steps, db, Begin(0, {0}, {0}, {1}));
    steps, db := Further(steps, db, Finish(0));
    assert db.rows == map[1 := Leased(row, 0)];
    steps, db := Further(steps, db, Insert(0, 0, 0, 1, 10));
    BehindPending(db, 0, 1);
  }

  lemma Begun() returns (db: Db)
    ensures db == START && Legal(START, []) && Run(START, []) == START
  {
    db := START;
  }

  lemma TwoClaims(row: Row) returns (steps: seq<Step>, db: Db)
    requires row == NewRow(0, 0, 1, 1, 0)
    ensures Legal(START, steps) && Run(START, steps) == db
    ensures db == Db(map[0 := row], map[1 := Claim(0, {0}), 2 := Claim(0, {0})], map[], 0)
  {
    hide Run, Legal;
    db := Begun();
    steps, db := Further([], START, Insert(0, 0, 0, 1, 1));
    assert db.rows == map[0 := row];
    assert |{0}| == 1;
    steps, db := Further(steps, db, Begin(1, {0}, {0}, {0}));
    steps, db := Further(steps, db, Begin(2, {0}, {0}, {0}));
  }

  lemma OneClaimDone(row: Row) returns (steps: seq<Step>, db: Db)
    requires row == NewRow(0, 0, 1, 1, 0)
    ensures Legal(START, steps) && Run(START, steps) == db
    ensures db == Db(map[0 := Leased(row, 0)], map[2 := Claim(0, {0})], map[0 := [0]], 0)
  {
    hide Run, Legal;
    steps, db := TwoClaims(row);
    var before := db;
    steps, db := Further(steps, db, Finish(1));
    assert Takes(before.rows, Claim(0, {0}), 0);
    assert Claims(before.history, 0) + [0] == [0];
    assert db.history == map[0 := [0]];
    assert db.inFlight == map[2 := Claim(0, {0})];
  }

  /** A run in which two gateways claim one envelope at the same moment: the second is
      slow, and the sweep clears the first one's lease before it. */
  lemma OvertakenClaimArises() returns (steps: seq<Step>)
    ensures Legal(START, steps) && !AllSpaced(Run(START, steps))
  {
    hide Run, Legal;
    var row := NewRow(0, 0, 1, 1, 0);
    var db;
    steps, db := OneClaimDone(row);
    steps, db := Further(steps, db, Tick(LEASE + 1));
    steps, db := Further(steps, db, Sweep);
    assert db.rows == map[0 := Leased(row, 0).(failed := true, leasedUntil := None)];
    steps, db := Further(steps, db, Finish(2));
    assert Claims(db.history, 0) == [0, 0];
    assert !Spaced([0, 0], db.rows[0].created, db.rows[0].expires);
  }

  lemma {:induction false} SpacedSpan(h: seq<int>, created: int, expires: int)
    requires Spaced(h, created, expires) && h != []
    ensures h[|h| - 1] >= created + LEASE * (|h| - 1)
  {
    if |h| > 1 { SpacedSpan(h[..|h| - 1], created, h[|h| - 2] + 1); }
  }

  /** The retry arithmetic: claims are spaced by the lease, so their number is
      bounded by the row's time to live. */
  lemma AttemptsBounded(steps: seq<Step>, id: Id)
    requires Legal(START, steps) && SweepsOvertakeNone(steps) && id in Run(START, steps).rows
    ensures var r := Run(START, steps).rows[id];
      var h := Claims(Run(START, steps).history, id);
      && (forall i :: 0 <= i < |h| ==> r.created <= h[i] < r.expires)
      && (forall i, j :: 0 <= i < j < |h| ==> h[j] > h[i] + 3_000_000)
      && |h| == r.attempts
      && (r.attempts > 0 ==> 3_000_000 * (r.attempts - 1) < r.expires - r.created)
  {
    RetryOverRuns(steps);
    assert RowKept(Run(START, steps), id);
    var r, h := Run(START, steps).rows[id], Claims(Run(START, steps).history, id);
    if r.attempts > 0 { SpacedSpan(h, r.created, r.expires); }
    forall i | 0 <= i < |h| ensures r.created <= h[i] < r.expires {
      if i > 0 { assert h[i] > h[0] + LEASE; }
      if i < |h| - 1 { assert h[|h| - 1] > h[i] + LEASE; }
    }
  }

  /** Whatever follows, an acknowledged envelope is never claimed again. */
  lemma {:induction false} AcknowledgedIsFinal(db: Db, steps: seq<Step>, id: Id)
    requires id in db.rows && db.rows[id].delivered && Legal(db, steps)
    ensures var after := Run(db, steps);
      && id in after.rows && after.rows[id] == db.rows[id]
      && Claims(after.history, id) == Claims(db.history, id)
  {
    hide Next, Possible, Claims;
    if steps != [] {
      var before := steps[..|steps| - 1];
      AcknowledgedIsFinal(db, before, id);
      StepKeepsAcknowledged(Run(db, before), steps[|steps| - 1], id);
    }
  }

  lemma StepKeepsAcknowledged(db: Db, s: Step, id: Id)
    requires id in db.rows && db.rows[id].delivered && Possible(db, s)
    ensures var after := Next(db, s);
      && id in after.rows && after.rows[id] == db.rows[id]
      && Claims(after.history, id) == Claims(db.history, id)
  {
    hide Due, Head;
  }

  /** A claim can settle nothing, and only the named app settles its envelope. */
  lemma AckSettles(db: Db, app: nat, id: Id)
    requires id in db.rows && !db.rows[id].delivered
    ensures var after := Next(db, Ack(app, id)).rows;
      && (after[id].delivered <==> db.rows[id].app == app)
      && (after[id].delivered ==> !Pending(after[id]) && after[id].leasedUntil.None?)
      && forall j <- db.rows :: j != id ==> after[j] == db.rows[j]
  {
  }

  // ---- Progress ----

  lemma {:induction false} LeastOf(rows: map<Id, Row>, ids: set<Id>) returns (least: Id)
    requires ids != {} && ids <= rows.Keys
    ensures least in ids && forall j <- ids :: rows[least].seqNo <= rows[j].seqNo
    decreases |ids|
  {
    var first: Id :| first in ids;
    var rest := ids - {first};
    least := first;
    if rest != {} {
      var other := LeastOf(rows, rest);
      if rows[other].seqNo < rows[first].seqNo { least := other; }
    }
    forall j <- ids ensures rows[least].seqNo <= rows[j].seqNo { assert j == first || j in rest; }
  }

  /** The head of a group is out on a lease, or a gateway with a socket may claim it,
      or the sweep settles it. */
  predicate Moves(db: Db, g: GatewayId, apps: set<nat>, socketMode: set<nat>, h: Id)
    requires h in db.rows
  {
    || !LeaseFree(db.rows[h], db.now)
    || Possible(db, Begin(g, apps, socketMode, {h}))
    || !Pending(SweepRows(db.rows, db.now)[h])
  }

  /** No group with a pending row is stuck: it has a head, and the head moves. */
  lemma GroupMoves(db: Db, id: Id, g: GatewayId, apps: set<nat>, socketMode: set<nat>) returns (h: Id)
    requires id in db.rows && Pending(db.rows[id]) && g !in db.inFlight
    requires db.rows[id].app in apps && db.rows[id].app in socketMode
    ensures Head(db.rows, h) && SameGroup(db.rows[h], db.rows[id]) && db.rows[h].seqNo <= db.rows[id].seqNo
    ensures Moves(db, g, apps, socketMode, h)
  {
    var group := set j <- db.rows.Keys | Pending(db.rows[j]) && SameGroup(db.rows[j], db.rows[id]);
    assert id in group;
    h := LeastOf(db.rows, group);
    assert Head(db.rows, h);
    assert |{h}| == 1;
  }

  // ---- What each step does to one row ----

  /** A new envelope is undelivered, unclaimed, and expires `ttl` from now. */
  lemma InsertedIs(db: Db, s: Step)
    requires s.Insert?
    ensures var after := Next(db, s);
      && s.id in after.rows
      && after.rows[s.id] == Row(s.app, s.channel, s.seqNo, db.now, db.now + s.ttl, 0, None, false, false)
      && forall j <- db.rows :: j != s.id ==> j in after.rows && after.rows[j] == db.rows[j]
  {
  }

  /** A claim leases, for three seconds from its snapshot, exactly the rows it picked that
      are undelivered and, by now, on no lease that reaches past the snapshot. */
  lemma ClaimLeases(db: Db, g: GatewayId, id: Id)
    requires g in db.inFlight && id in db.rows
    ensures var c, r, after := db.inFlight[g], db.rows[id], Next(db, Finish(g));
      var takes := id in c.picked && !r.delivered && (r.leasedUntil.Some? ==> r.leasedUntil.value < c.at);
      && id in after.rows
      && after.rows[id] == (if takes
                            then r.(leasedUntil := Some(c.at + 3_000_000), attempts := r.attempts + 1) else r)
      && Claims(after.history, id) == Claims(db.history, id) + (if takes then [c.at] else [])
      && after.inFlight == db.inFlight - {g}
  {
    assert Claims(db.history, id) + [] == Claims(db.history, id);
  }

  // ---- What a claim may pick, and what fails ----

  /** A gateway can pick a row exactly if it is the oldest of its app and channel still
      neither delivered nor failed, its app has a socket here and is in socket mode, it
      has not expired, and no lease is on it. */
  lemma PickedIff(db: Db, g: GatewayId, apps: set<nat>, socketMode: set<nat>, id: Id)
    requires id in db.rows && g !in db.inFlight
    ensures var r := db.rows[id];
      Possible(db, Begin(g, apps, socketMode, {id})) <==>
        && !r.delivered && !r.failed && r.app in apps && r.app in socketMode && db.now < r.expires
        && (r.leasedUntil.Some? ==> r.leasedUntil.value < db.now)
        && forall j <- db.rows ::
             (var other := db.rows[j];
              other.app == r.app && other.channel == r.channel && !other.delivered && !other.failed
              ==> r.seqNo <= other.seqNo)
  {
    assert |{id}| == 1;
    if Possible(db, Begin(g, apps, socketMode, {id})) { assert Due(db.rows, apps, socketMode, id, db.now); }
  }

  /** No more than a hundred are picked, each of which could be picked alone. */
  lemma PicksIff(db: Db, g: GatewayId, apps: set<nat>, socketMode: set<nat>, picked: set<Id>)
    ensures Possible(db, Begin(g, apps, socketMode, picked)) <==>
      && g !in db.inFlight && |picked| <= 100
      && forall id <- picked :: Possible(db, Begin(g, apps, socketMode, {id}))
  {
    forall id | id in picked && Possible(db, Begin(g, apps, socketMode, {id}))
      ensures Due(db.rows, apps, socketMode, id, db.now)
    {
      assert id in {id};
    }
    forall id | id in picked ensures |{id}| == 1 {}
  }

  /** After every run an envelope that failed has expired. */
  lemma {:induction false} FailedHaveExpired(steps: seq<Step>, id: Id)
    requires Legal(START, steps) && id in Run(START, steps).rows
    ensures Run(START, steps).rows[id].failed ==> Run(START, steps).rows[id].expires <= Run(START, steps).now
  {
    if steps != [] {
      hide Possible;
      var before := steps[..|steps| - 1];
      if id in Run(START, before).rows { FailedHaveExpired(before, id); }
      FailedStep(Run(START, before), steps[|steps| - 1], id);
    }
  }

  lemma FailedStep(db: Db, s: Step, id: Id)
    requires Possible(db, s) && id in Next(db, s).rows
    requires id in db.rows ==> (db.rows[id].failed ==> db.rows[id].expires <= db.now)
    ensures Next(db, s).rows[id].failed ==> Next(db, s).rows[id].expires <= Next(db, s).now
  {
    hide Due, Head;
  }

  /** And a sweep fails every pending envelope that has expired and is on no lease. */
  lemma SweepFails(db: Db, id: Id)
    requires id in db.rows && !db.rows[id].delivered
    ensures Next(db, Sweep).rows[id].failed <==>
      db.rows[id].failed || (db.rows[id].expires <= db.now
        && (db.rows[id].leasedUntil.Some? ==> db.rows[id].leasedUntil.value < db.now))
  {
  }
}
