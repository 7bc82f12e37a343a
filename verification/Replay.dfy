/**
 Handing a reconnecting client what it missed: a probe for the oldest entry, then
 a range read, with appends and trimming possible in between.
 */
module Replay {
  import opened Options
  import opened StreamId
  import opened Registry
  import opened Routing

  const MAX_EVENTS := 1_000
  const STREAM_MAXLEN := 10_000

  /** `event` is absent for an entry that does not decode. */
  datatype Entry = Entry(id: Id, event: Option<(EventType, Payload)>)

  /** What Redis answers: entries in id order, or an error. */
  datatype Reading = Failed | Entries(entries: seq<Entry>)

  datatype Result = Caught(events: nat, lastId: Option<string>) | RefetchRequired

  predicate Sorted(log: seq<Entry>) {
    && (forall i, j :: 0 <= i < j < |log| ==> Less(log[i].id, log[j].id))
    && forall e <- log :: Fits(e.id)
  }

  /** A client's cursor: its text, and the place where the store's range read takes it
      to be, which refuses some texts and understands more than the probe does. */
  datatype Cursor = Cursor(text: string, start: Option<Id>)

  /** Where the probe understands the text the two agree. */
  predicate Agrees(c: Cursor) {
    && (ParseId(c.text).Some? ==> c.start == ParseId(c.text))
    && (c.start.Some? ==> Fits(c.start.value))
  }

  function After(log: seq<Entry>, start: Id): seq<Entry> {
    if log == [] then [] else
      After(log[..|log| - 1], start)
      + if Less(start, log[|log| - 1].id) then [log[|log| - 1]] else []
  }

  predicate TooOld(probe: seq<Entry>, cursor: Cursor) {
    probe != [] && IsOlder(cursor.text, Format(probe[0].id))
  }

  /** The entries a replay works through, unless it tells the client to refetch.
      The read asks for one more than it will use. */
  function ToReplay(probe: Reading, read: Reading, cursor: Cursor): Option<seq<Entry>> {
    if probe.Failed? || TooOld(probe.entries, cursor) then None
    else if read.Failed? || cursor.start.None? then None
    else
      var missed := After(read.entries, cursor.start.value);
      if |missed| > MAX_EVENTS then None else Some(missed)
  }

  predicate Shown(e: Entry) { e.event.Some? && e.event.value.0 != HuddleRing }

  function Handed(es: seq<Entry>): seq<Entry> {
    if es == [] then [] else
      Handed(es[..|es| - 1]) + if Shown(es[|es| - 1]) then [es[|es| - 1]] else []
  }

  function LastDecoded(es: seq<Entry>): Option<Id> {
    if es == [] then None
    else if es[|es| - 1].event.Some? then Some(es[|es| - 1].id)
    else LastDecoded(es[..|es| - 1])
  }

  function Written(id: Option<Id>): Option<string> {
    match id case Some(i) => Some(Format(i)) case None => None
  }

  function HandleEach(conns: Conns, a: Audience, es: seq<Entry>): Conns {
    if es == [] then conns else
      var before := HandleEach(conns, a, es[..|es| - 1]);
      match es[|es| - 1].event
      case None => before
      case Some((kind, payload)) => Handle(before, a, kind, payload, Some(Format(es[|es| - 1].id)))
  }

  lemma OneMore(es: seq<Entry>, i: nat)
    requires i < |es|
    ensures Handed(es[..i + 1]) == if Shown(es[i]) then Handed(es[..i]) + [es[i]] else Handed(es[..i])
    ensures LastDecoded(es[..i + 1]) == if es[i].event.Some? then Some(es[i].id) else LastDecoded(es[..i])
  {
    assert es[..i + 1][..i] == es[..i];
  }

  lemma HandleOneMore(conns: Conns, a: Audience, es: seq<Entry>, e: Entry)
    requires e.event.Some?
    ensures HandleEach(conns, a, es + [e])
         == Handle(HandleEach(conns, a, es), a, e.event.value.0, e.event.value.1, Some(Format(e.id)))
  {
    assert (es + [e])[..|es|] == es;
  }

  method HandOverOne(cm: ConnectionManager, c: Uuid, ghost before: seq<Entry>, e: Entry, ghost start: Conns)
    requires cm.Valid() && e.event.Some? && cm.connections == HandleEach(start, Only(c), before)
    modifies cm
    ensures cm.Valid() && cm.connections == HandleEach(start, Only(c), before + [e])
  {
    HandleOneMore(start, Only(c), before, e);
    HandleEventFor(cm, Only(c), e.event.value.0, e.event.value.1, Some(Format(e.id)));
  }

  lemma NothingYet(conns: Conns, c: Uuid)
    ensures Handed([]) == [] && LastDecoded([]).None? && Written(None).None?
    ensures HandleEach(conns, Only(c), []) == conns
  {
  }

  method HandOver(cm: ConnectionManager, c: Uuid, entries: seq<Entry>)
    returns (delivered: nat, lastId: Option<string>)
    requires cm.Valid()
    modifies cm
    ensures cm.Valid()
    ensures delivered == |Handed(entries)| && lastId == Written(LastDecoded(entries))
    ensures cm.connections == HandleEach(old(cm.connections), Only(c), Handed(entries))
  {
    hide Handle, Format;
    delivered, lastId := 0, None;
    var i := 0;
    NothingYet(cm.connections, c);
    assert entries[..0] == [];
    while i < |entries|
      invariant i <= |entries| && cm.Valid()
      invariant delivered == |Handed(entries[..i])| && lastId == Written(LastDecoded(entries[..i]))
      invariant cm.connections == HandleEach(old(cm.connections), Only(c), Handed(entries[..i]))
    {
      OneMore(entries, i);
      var e := entries[i];
      if e.event.Some? {
        if e.event.value.0 != HuddleRing {
          HandOverOne(cm, c, Handed(entries[..i]), e, old(cm.connections));
          delivered := delivered + 1;
        }
        lastId := Some(Format(e.id));
      }
      i := i + 1;
    }
    assert entries[..i] == entries;
  }

  // ---- When a client must refetch ----

  /** How many entries have ids above the place. */
  function Above(log: seq<Entry>, place: Id): nat { |PlacesAbove(log, place)| }

  function PlacesAbove(log: seq<Entry>, place: Id): set<int> {
    set i | 0 <= i < |log| && Less(place, log[i].id)
  }

  /** The oldest entry kept is later than the place the cursor names. */
  predicate Passed(probe: seq<Entry>, cursor: Cursor) {
    probe != [] && ParseId(cursor.text).Some? && Less(ParseId(cursor.text).value, probe[0].id)
  }

  /** One of the two reads failed, or the cursor is refused, or what it missed is gone or
      is more than a thousand entries. */
  predicate MustRefetch(probe: Reading, read: Reading, cursor: Cursor) {
    || probe.Failed? || read.Failed? || cursor.start.None?
    || Passed(probe.entries, cursor) || Above(read.entries, cursor.start.value) > 1000
  }

  /** Ids are two 64-bit numbers. */
  predicate IdsFit(probe: Reading) { probe.Entries? && probe.entries != [] ==> Fits(probe.entries[0].id) }

  lemma {:induction false} AfterCounts(log: seq<Entry>, start: Id)
    ensures |After(log, start)| == Above(log, start)
  {
    hide Less;
    if log != [] {
      var n := |log| - 1;
      AfterCounts(log[..n], start);
      OnePlaceMore(log, start);
    }
  }

  lemma OnePlaceMore(log: seq<Entry>, start: Id)
    requires log != []
    ensures var n := |log| - 1;
      Above(log, start) == Above(log[..n], start) + if Less(start, log[n].id) then 1 else 0
  {
    hide Less;
    var n := |log| - 1;
    var before, all := PlacesAbove(log[..n], start), PlacesAbove(log, start);
    assert n !in before;
    if Less(start, log[n].id) {
      assert all == before + {n};
    } else {
      assert all == before;
    }
  }

  /** Otherwise, and only otherwise, the client is served. */
  lemma RefetchIff(probe: Reading, read: Reading, cursor: Cursor)
    requires IdsFit(probe)
    ensures ToReplay(probe, read, cursor).None? <==> MustRefetch(probe, read, cursor)
  {
    if read.Entries? && cursor.start.Some? { AfterCounts(read.entries, cursor.start.value); }
    if probe.Entries? && probe.entries != [] { FormatReadsBack(probe.entries[0].id); }
    hide ParseId, Format, After, Above;
  }

  method ReplayWorkspace(
    cm: ConnectionManager, c: Uuid, probe: Reading, read: Reading, cursor: Cursor)
    returns (r: Result)
    requires cm.Valid()
    modifies cm
    ensures cm.Valid()
    ensures r.RefetchRequired? <==> ToReplay(probe, read, cursor).None?
    ensures IdsFit(probe) ==> (r.RefetchRequired? <==> MustRefetch(probe, read, cursor))
    ensures r.RefetchRequired? ==> cm.connections == old(cm.connections)
    ensures r.Caught? ==>
      var es := ToReplay(probe, read, cursor).value;
      && r == Caught(|Handed(es)|, Written(LastDecoded(es)))
      && cm.connections == HandleEach(old(cm.connections), Only(c), Handed(es))
  {
    if IdsFit(probe) { RefetchIff(probe, read, cursor); }
    if probe.Failed? || TooOld(probe.entries, cursor) {
      return RefetchRequired;
    }
    if read.Failed? || cursor.start.None? {
      return RefetchRequired;
    }
    var entries := After(read.entries, cursor.start.value);
    if |entries| > MAX_EVENTS {
      return RefetchRequired;
    }
    var delivered, lastId := HandOver(cm, c, entries);
    return Caught(delivered, lastId);
  }

  // ---- What the client gets ----

  lemma SortedInit(log: seq<Entry>, e: Entry)
    requires Sorted(log + [e])
    ensures Sorted(log) && Fits(e.id) && forall x <- log :: Less(x.id, e.id)
  {
    var all := log + [e];
    forall i, j | 0 <= i < j < |log| ensures Less(log[i].id, log[j].id) {
      assert Less(all[i].id, all[j].id);
    }
    forall x <- log ensures Less(x.id, e.id) && Fits(x.id) {
      var i :| 0 <= i < |log| && log[i] == x;
      assert all[i] == x && all[|log|] == e;
    }
    assert e in all;
  }

  lemma SortedSnoc(log: seq<Entry>, e: Entry)
    requires Sorted(log) && Fits(e.id) && forall x <- log :: Less(x.id, e.id)
    ensures Sorted(log + [e])
  {
  }

  lemma {:induction false} HandedInOrder(es: seq<Entry>)
    requires Sorted(es)
    ensures Sorted(Handed(es)) && forall e :: e in Handed(es) <==> e in es && Shown(e)
  {
    if es != [] {
      var init, e := es[..|es| - 1], es[|es| - 1];
      assert es == init + [e];
      SortedInit(init, e);
      HandedInOrder(init);
      SortedSnoc(Handed(init), e);
    }
  }

  lemma {:induction false} AfterIsTail(log: seq<Entry>, start: Id)
    requires Sorted(log)
    ensures Sorted(After(log, start)) && forall e :: e in After(log, start) <==> e in log && Less(start, e.id)
  {
    if log != [] {
      var init, e := log[..|log| - 1], log[|log| - 1];
      assert log == init + [e];
      SortedInit(init, e);
      AfterIsTail(init, start);
      SortedSnoc(After(init, start), e);
    }
  }

  lemma {:induction false} LastDecodedIsLast(es: seq<Entry>)
    requires Sorted(es)
    ensures LastDecoded(es).None? <==> forall e <- es :: e.event.None?
    ensures LastDecoded(es).Some? ==> Fits(LastDecoded(es).value)
    ensures LastDecoded(es).Some? ==> forall e <- es :: e.event.Some? ==> !Less(LastDecoded(es).value, e.id)
    ensures LastDecoded(es).Some? ==> exists e <- es :: e.id == LastDecoded(es).value
  {
    if es != [] {
      var init, e := es[..|es| - 1], es[|es| - 1];
      assert es == init + [e];
      SortedInit(init, e);
      LastDecodedIsLast(init);
      hide Sorted, Fits;
    }
  }

  /** Where the client resumes from: the answered id, or the cursor it had. */
  function Resume(es: seq<Entry>, start: Id): Id {
    match LastDecoded(es) case Some(id) => id case None => start
  }

  /** The client is handed, in id order and once each, every decodable entry
      after its cursor that is not a ring. */
  lemma HandsEveryEventOnce(history: seq<Entry>, start: Id)
    requires Sorted(history)
    ensures Sorted(Handed(After(history, start)))
    ensures forall e :: e in Handed(After(history, start)) <==>
              e in history && Less(start, e.id) && e.event.Some? && e.event.value.0 != HuddleRing
  {
    AfterIsTail(history, start);
    HandedInOrder(After(history, start));
  }

  /** Replaying again from the returned id hands over nothing the first replay
      handed over, whatever the log has become; on the same log, nothing at all. */
  lemma NothingTwice(history: seq<Entry>, later: seq<Entry>, start: Id, e: Entry)
    requires Sorted(history) && Sorted(later)
    requires e in Handed(After(history, start))
    ensures e !in Handed(After(later, Resume(After(history, start), start)))
  {
    var es := After(history, start);
    AfterIsTail(history, start);
    HandsEveryEventOnce(history, start);
    LastDecodedIsLast(es);
    HandsEveryEventOnce(later, Resume(es, start));
  }

  lemma FirstIsMember(es: seq<Entry>)
    ensures es == [] || es[0] in es
  {
  }

  lemma NothingLeft(history: seq<Entry>, start: Id)
    requires Sorted(history)
    ensures Handed(After(history, Resume(After(history, start), start))) == []
  {
    var es := After(history, start);
    var resume := Resume(es, start);
    AfterIsTail(history, start);
    LastDecodedIsLast(es);
    HandsEveryEventOnce(history, resume);
    forall e <- history | Shown(e) ensures !Less(resume, e.id) {
      if Less(start, e.id) { assert e in es; }
    }
    FirstIsMember(Handed(After(history, resume)));
  }

  /** The id a replay answers with reads back as the place it stopped. */
  lemma AnswerReadsBack(es: seq<Entry>, start: Id)
    requires Sorted(es)
    ensures LastDecoded(es).Some? ==> ParseId(Written(LastDecoded(es)).value) == Some(Resume(es, start))
  {
    LastDecodedIsLast(es);
    if LastDecoded(es).Some? { FormatReadsBack(LastDecoded(es).value); }
  }
}
