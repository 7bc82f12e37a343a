/**
 The log a replay reads: appends trim it by length, a trimmer by age, and both may
 come between the probe for the oldest entry and the read. When is `Caught` true?
 */
module ReplayLog {
  import opened Options
  import opened StreamId
  import opened Replay

  /** Everything ever appended, and how many of the oldest have been trimmed. */
  datatype Stream = Stream(history: seq<Entry>, cut: nat)

  predicate WellFormed(s: Stream) { Sorted(s.history) && s.cut <= |s.history| }

  function Kept(s: Stream): seq<Entry>
    requires s.cut <= |s.history|
  {
    s.history[s.cut..]
  }

  /** An append, which may trim by length, and the trimmer's cut by age, which spares
      nothing that is old enough. */
  datatype LogStep = Append(entry: Entry, cut: nat) | Expire(cut: nat)

  const EMPTY_LOG := Stream([], 0)

  function LogNext(s: Stream, step: LogStep): Stream {
    match step
    case Append(e, cut) => Stream(s.history + [e], cut)
    case Expire(cut) => s.(cut := cut)
  }

  /** Ids grow. An append trims, if it does, down to no fewer than the limit. */
  predicate LogPossible(s: Stream, step: LogStep) {
    match step
    case Append(e, cut) =>
      && Sorted(s.history + [e])
      && (cut == s.cut || (s.cut <= cut && cut + STREAM_MAXLEN <= |s.history| + 1))
    case Expire(cut) => s.cut <= cut <= |s.history|
  }

  function LogRun(s: Stream, steps: seq<LogStep>): Stream {
    if steps == [] then s else LogNext(LogRun(s, steps[..|steps| - 1]), steps[|steps| - 1])
  }

  predicate LogLegal(s: Stream, steps: seq<LogStep>) {
    steps != [] ==>
      && LogLegal(s, steps[..|steps| - 1])
      && LogPossible(LogRun(s, steps[..|steps| - 1]), steps[|steps| - 1])
  }

  predicate AppendsOnly(steps: seq<LogStep>) { forall i :: 0 <= i < |steps| ==> steps[i].Append? }

  /** What some run from the empty log leads to. */
  ghost predicate Arises(s: Stream) {
    exists steps :: LogLegal(EMPTY_LOG, steps) && LogRun(EMPTY_LOG, steps) == s
  }

  /** The two replies come from these moments: some steps lie between them. */
  ghost predicate Window(s: Stream, t: Stream, steps: seq<LogStep>) {
    Arises(s) && LogLegal(s, steps) && LogRun(s, steps) == t
  }

  predicate Later(s: Stream, t: Stream) {
    && WellFormed(s) && WellFormed(t) && s.history <= t.history && s.cut <= t.cut
    && (t.cut == s.cut || |Kept(t)| >= STREAM_MAXLEN)
  }

  lemma {:induction false} LogStaysFormed(s: Stream, steps: seq<LogStep>)
    requires WellFormed(s) && LogLegal(s, steps)
    ensures var t := LogRun(s, steps); WellFormed(t) && s.history <= t.history && s.cut <= t.cut
  {
    if steps != [] { LogStaysFormed(s, steps[..|steps| - 1]); }
  }

  lemma ArisingIsFormed(s: Stream)
    requires Arises(s)
    ensures WellFormed(s)
  {
    var steps :| LogLegal(EMPTY_LOG, steps) && LogRun(EMPTY_LOG, steps) == s;
    LogStaysFormed(EMPTY_LOG, steps);
  }

  lemma {:induction false} AppendsAreLater(s: Stream, steps: seq<LogStep>)
    requires WellFormed(s) && LogLegal(s, steps) && AppendsOnly(steps)
    ensures Later(s, LogRun(s, steps))
  {
    if steps != [] {
      var before := steps[..|steps| - 1];
      AppendsAreLater(s, before);
      LogStaysFormed(s, steps);
      assert steps[|steps| - 1].Append?;
    }
  }

  lemma LogExtend(s: Stream, steps: seq<LogStep>, step: LogStep)
    requires LogLegal(s, steps) && LogPossible(LogRun(s, steps), step)
    ensures LogLegal(s, steps + [step]) && LogRun(s, steps + [step]) == LogNext(LogRun(s, steps), step)
  {
    assert (steps + [step])[..|steps|] == steps;
  }

  lemma {:induction false} HistoryArises(history: seq<Entry>) returns (steps: seq<LogStep>)
    requires Sorted(history)
    ensures LogLegal(EMPTY_LOG, steps) && LogRun(EMPTY_LOG, steps) == Stream(history, 0)
  {
    steps := [];
    if history != [] {
      var init, e := history[..|history| - 1], history[|history| - 1];
      assert history == init + [e];
      SortedInit(init, e);
      var before := HistoryArises(init);
      LogExtend(EMPTY_LOG, before, Append(e, 0));
      steps := before + [Append(e, 0)];
    }
  }

  /** Trimmed by age, any log comes about. */
  lemma EveryLogArises(s: Stream)
    requires WellFormed(s)
    ensures Arises(s)
  {
    var steps := HistoryArises(s.history);
    LogExtend(EMPTY_LOG, steps, Expire(s.cut));
    assert LogRun(EMPTY_LOG, steps + [Expire(s.cut)]) == s;
  }

  lemma {:induction false} AfterSplits(a: seq<Entry>, b: seq<Entry>, start: Id)
    ensures After(a + b, start) == After(a, start) + After(b, start)
  {
    if b == [] {
      assert a + b == a;
    } else {
      assert (a + b)[..|a + b| - 1] == a + b[..|b| - 1];
      AfterSplits(a, b[..|b| - 1], start);
    }
  }

  lemma {:induction false} AfterEmptyIff(log: seq<Entry>, start: Id)
    ensures After(log, start) == [] <==> forall e <- log :: !Less(start, e.id)
  {
    if log != [] {
      AfterEmptyIff(log[..|log| - 1], start);
      assert log == log[..|log| - 1] + [log[|log| - 1]];
    }
  }

  lemma {:induction false} AfterAll(log: seq<Entry>, start: Id)
    requires forall e <- log :: Less(start, e.id)
    ensures After(log, start) == log
  {
    if log != [] { AfterAll(log[..|log| - 1], start); }
  }

  /** However the log was trimmed, the read holds everything appended after the
      start exactly when the newest entry trimmed away is not after it. */
  lemma ReadIsCompleteIff(t: Stream, start: Id)
    requires WellFormed(t)
    ensures After(Kept(t), start) == After(t.history, start)
       <==> (t.cut > 0 ==> !Less(start, t.history[t.cut - 1].id))
  {
    hide After;
    var gone := t.history[..t.cut];
    assert t.history == gone + Kept(t);
    AfterSplits(gone, Kept(t), start);
    AfterEmptyIff(gone, start);
    assert |After(t.history, start)| == |After(gone, start)| + |After(Kept(t), start)|;
    if t.cut > 0 && !Less(start, t.history[t.cut - 1].id) {
      forall e <- gone ensures !Less(start, e.id) {
        var i :| 0 <= i < t.cut && gone[i] == e;
        assert t.history[i] == e;
      }
    }
    if t.cut > 0 { assert t.history[t.cut - 1] in gone; }
  }

  /** If the newest trimmed entry is after the start, so is every entry kept. */
  lemma AllKeptAfter(t: Stream, start: Id)
    requires WellFormed(t) && t.cut > 0 && Less(start, t.history[t.cut - 1].id)
    ensures After(Kept(t), start) == Kept(t)
  {
    forall e <- Kept(t) ensures Less(start, e.id) {
      var i :| 0 <= i < |Kept(t)| && Kept(t)[i] == e;
      assert t.history[t.cut + i] == e;
    }
    AfterAll(Kept(t), start);
  }

  /** Nothing after the start was trimmed when the probe found it in the log and
      the read found fewer entries than trimming leaves. */
  lemma NothingMissed(s: Stream, t: Stream, start: Id)
    requires Later(s, t) && Kept(s) != [] && !Less(start, s.history[s.cut].id)
    requires |After(Kept(t), start)| <= MAX_EVENTS
    ensures After(Kept(t), start) == After(t.history, start)
  {
    hide After;
    ReadIsCompleteIff(t, start);
    assert s.history[s.cut] == t.history[s.cut];
    if t.cut > s.cut && Less(start, t.history[t.cut - 1].id) { AllKeptAfter(t, start); }
  }

  /** What a replay works through when the probe sees `s` and the read sees `t`. */
  function Worked(s: Stream, t: Stream, cursor: Cursor): Option<seq<Entry>>
    requires s.cut <= |s.history| && t.cut <= |t.history|
  {
    ToReplay(Entries(Kept(s)), Entries(Kept(t)), cursor)
  }

  /** `Caught` is answered only over everything appended after the cursor. */
  predicate CompleteIfCaught(s: Stream, t: Stream, cursor: Cursor)
    requires s.cut <= |s.history| && t.cut <= |t.history|
  {
    Worked(s, t, cursor).Some? ==>
      cursor.start.Some? && Worked(s, t, cursor).value == After(t.history, cursor.start.value)
  }

  lemma CaughtIsComplete(s: Stream, t: Stream, cursor: Cursor)
    requires Later(s, t) && Kept(s) != [] && Agrees(cursor) && ParseId(cursor.text).Some?
    ensures CompleteIfCaught(s, t, cursor)
  {
    if Worked(s, t, cursor).Some? {
      assert Kept(s)[0] == s.history[s.cut];
      FormatReadsBack(Kept(s)[0].id);
      NothingMissed(s, t, cursor.start.value);
    }
  }

  // ---- Which cursors are safe ----

  const LAST_ID := Id(U64 - 1, U64 - 1)
  const BEFORE_LAST := Id(U64 - 1, U64 - 2)

  /** At most one entry can follow the place. */
  predicate AtTheEnd(start: Id) { !Less(start, BEFORE_LAST) }

  /** That one entry, being the newest, is not trimmed from a log that is not empty. */
  lemma EndIsComplete(t: Stream, start: Id)
    requires WellFormed(t) && t.cut < |t.history| && AtTheEnd(start)
    ensures After(Kept(t), start) == After(t.history, start)
  {
    ReadIsCompleteIff(t, start);
    var newest := t.history[|t.history| - 1];
    assert newest in t.history && Fits(newest.id);
    if t.cut > 0 { assert Less(t.history[t.cut - 1].id, newest.id); }
  }

  /** Appending and trimming by length in between, a replay whose probe finds the log
      occupied is complete whenever it answers `Caught`. */
  ghost predicate SafeWhileAppending(cursor: Cursor) {
    forall s, t, steps | Window(s, t, steps) && AppendsOnly(steps) && s.cut < |s.history| ::
      t.cut <= |t.history| && CompleteIfCaught(s, t, cursor)
  }

  /** The probe understands the cursor, or it does not matter. */
  predicate ReadWhereItMatters(cursor: Cursor) {
    ParseId(cursor.text).Some? || cursor.start.None? || AtTheEnd(cursor.start.value)
  }

  /** It holds of exactly the cursors that the probe understands if the read does, but
      for those that at most one entry can follow. */
  lemma SafeWhileAppendingIff(cursor: Cursor)
    requires Agrees(cursor)
    ensures SafeWhileAppending(cursor) <==> ReadWhereItMatters(cursor)
  {
    hide Window, ParseId, AtTheEnd, CompleteIfCaught;
    if ReadWhereItMatters(cursor) {
      forall s, t, steps | Window(s, t, steps) && AppendsOnly(steps) && s.cut < |s.history|
        ensures t.cut <= |t.history| && CompleteIfCaught(s, t, cursor)
      {
        WindowIsFormed(s, t, steps);
        WindowIsLater(s, t, steps);
        ReadIsComplete(s, t, cursor);
      }
    } else {
      var s := UnreadCursorMisses(cursor);
      StandingStill(s);
      assert AppendsOnly([]);
    }
  }

  lemma WindowIsFormed(s: Stream, t: Stream, steps: seq<LogStep>)
    requires Window(s, t, steps)
    ensures WellFormed(s) && WellFormed(t)
  {
    ArisingIsFormed(s);
    LogStaysFormed(s, steps);
  }

  lemma WindowIsLater(s: Stream, t: Stream, steps: seq<LogStep>)
    requires Window(s, t, steps) && AppendsOnly(steps)
    ensures Later(s, t)
  {
    ArisingIsFormed(s);
    AppendsAreLater(s, steps);
  }

  lemma StandingStill(s: Stream)
    requires Arises(s)
    ensures Window(s, s, [])
  {
    hide Arises;
  }

  lemma ReadIsComplete(s: Stream, t: Stream, cursor: Cursor)
    requires Later(s, t) && s.cut < |s.history| && Agrees(cursor) && ReadWhereItMatters(cursor)
    ensures CompleteIfCaught(s, t, cursor)
  {
    hide After, AtTheEnd, ParseId;
    if ParseId(cursor.text).Some? {
      CaughtIsComplete(s, t, cursor);
    } else if cursor.start.Some? {
      EndIsComplete(t, cursor.start.value);
    }
  }

  lemma OneAfter(e: Entry, start: Id)
    ensures After([], start) == [] && After([e], start) == if Less(start, e.id) then [e] else []
  {
    assert [e][..0] == [];
  }

  lemma TwoAfter(e: Entry, f: Entry, start: Id)
    ensures After([e, f], start)
         == (if Less(start, e.id) then [e] else []) + (if Less(start, f.id) then [f] else [])
  {
    assert [e] + [f] == [e, f];
    AfterSplits([e], [f], start);
    OneAfter(e, start);
    OneAfter(f, start);
  }

  lemma OneSorted(e: Entry)
    requires Fits(e.id)
    ensures Sorted([e])
  {
  }

  lemma TwoSorted(e: Entry, f: Entry)
    requires Fits(e.id) && Fits(f.id) && Less(e.id, f.id)
    ensures Sorted([e, f])
  {
  }

  /** A probe that finds nothing, or nothing later than the cursor as it reads it,
      leaves the answer to the read. */
  lemma ReadDecides(s: Stream, t: Stream, cursor: Cursor)
    requires s.cut <= |s.history| && t.cut <= |t.history| && cursor.start.Some?
    requires !TooOld(Kept(s), cursor) && |After(Kept(t), cursor.start.value)| <= MAX_EVENTS
    ensures Worked(s, t, cursor) == Some(After(Kept(t), cursor.start.value))
  {
    hide TooOld, After;
  }

  function NextId(id: Id): Id {
    if id.seqNo < U64 - 1 then Id(id.ms, id.seqNo + 1) else Id(id.ms + 1, 0)
  }

  lemma NextIdFits(id: Id)
    requires Fits(id) && id != LAST_ID
    ensures Fits(NextId(id)) && Less(id, NextId(id))
  {
  }

  /** With room for two, the two next ids. */
  lemma TwoFit(id: Id)
    requires Fits(id) && !AtTheEnd(id)
    ensures var next := NextId(id);
      && Fits(next) && Fits(NextId(next)) && Less(id, next) && Less(next, NextId(next)) && Less(id, NextId(next))
  {
  }

  lemma BlindProbe(probe: seq<Entry>, cursor: Cursor)
    requires ParseId(cursor.text).None?
    ensures !TooOld(probe, cursor)
  {
    hide ParseId, Format;
  }

  /** A cursor the read understands and the probe does not slips past the probe: the
      entry next to it may have been trimmed. */
  lemma UnreadCursorMisses(cursor: Cursor) returns (s: Stream)
    requires Agrees(cursor) && !ReadWhereItMatters(cursor)
    ensures Arises(s) && WellFormed(s) && s.cut < |s.history|
    ensures Worked(s, s, cursor).Some? && !CompleteIfCaught(s, s, cursor)
  {
    var start := cursor.start.value;
    var gone, kept := Entry(NextId(start), None), Entry(NextId(NextId(start)), None);
    TwoFit(start);
    hide Sorted, After, Arises, TooOld, ToReplay, Less, NextId, ParseId, AtTheEnd;
    TwoSorted(gone, kept);
    s := Stream([gone, kept], 1);
    assert Kept(s) == [kept];
    BlindProbe([kept], cursor);
    EveryLogArises(s);
    OneAfter(kept, start);
    TwoAfter(gone, kept, start);
    ReadDecides(s, s, cursor);
  }

  /** A bare millisecond is such a text: the probe wants a sequence part. */
  lemma BareMillisIsUnread(ms: nat)
    ensures ParseId(Decimal(ms)).None?
  {
    DecimalReads(ms);
    if DashAt(Decimal(ms)) < |Decimal(ms)| {
      assert IsDigit(Decimal(ms)[DashAt(Decimal(ms))]);
    }
  }

  /** So whatever millisecond it names, an entry of that very millisecond may be lost
      while `Caught` is answered. */
  lemma BareMillisMisses(ms: nat) returns (s: Stream)
    requires ms < U64
    ensures var cursor := Cursor(Decimal(ms), Some(Id(ms, 0)));
      && Arises(s) && WellFormed(s) && s.cut < |s.history|
      && Worked(s, s, cursor).Some? && !CompleteIfCaught(s, s, cursor)
  {
    hide Arises, Worked, CompleteIfCaught;
    BareMillisIsUnread(ms);
    s := UnreadCursorMisses(Cursor(Decimal(ms), Some(Id(ms, 0))));
  }

  /** The same with the trimmer by age at work in between. */
  ghost predicate SafeWhileExpiring(cursor: Cursor) {
    forall s, t, steps | Window(s, t, steps) && s.cut < |s.history| ::
      t.cut <= |t.history| && CompleteIfCaught(s, t, cursor)
  }

  /** Then no cursor is safe but one that is refused, and one nothing can follow. */
  lemma SafeWhileExpiringIff(cursor: Cursor)
    requires Agrees(cursor)
    ensures SafeWhileExpiring(cursor) <==> cursor.start in {None, Some(LAST_ID)}
  {
    hide Window, Agrees;
    if cursor.start in {None, Some(LAST_ID)} {
      forall s, t, steps | Window(s, t, steps) && s.cut < |s.history|
        ensures t.cut <= |t.history| && CompleteIfCaught(s, t, cursor)
      {
        WindowIsFormed(s, t, steps);
        if cursor.start.Some? { NothingFollowsLast(t); }
      }
    } else {
      var s, t, steps := ExpiryBetweenMisses(cursor);
    }
  }

  lemma AllExpires(history: seq<Entry>)
    requires Sorted(history)
    ensures Window(Stream(history, 0), Stream(history, |history|), [Expire(|history|)])
  {
    hide Sorted;
    var s := Stream(history, 0);
    EveryLogArises(s);
    LogExtend(s, [], Expire(|history|));
    assert [] + [Expire(|history|)] == [Expire(|history|)];
  }

  lemma OwnPlaceIsNotOld(cursor: Cursor, own: Entry)
    requires Agrees(cursor) && cursor.start == Some(own.id)
    ensures !TooOld([own], cursor)
  {
    FormatReadsBack(own.id);
  }

  lemma TooOldByFirst(probe: seq<Entry>, cursor: Cursor)
    requires probe != []
    ensures TooOld(probe, cursor) <==> TooOld([probe[0]], cursor)
  {
    hide IsOlder;
  }

  /** The probe finds the client's own place; then that and the next entry expire. */
  lemma ExpiryBetweenMisses(cursor: Cursor) returns (s: Stream, t: Stream, steps: seq<LogStep>)
    requires Agrees(cursor) && cursor.start.Some? && cursor.start.value != LAST_ID
    ensures Window(s, t, steps) && WellFormed(s) && WellFormed(t) && s.cut < |s.history|
    ensures Worked(s, t, cursor) == Some([]) && !CompleteIfCaught(s, t, cursor)
  {
    var start := cursor.start.value;
    var own, gone := Entry(start, None), Entry(NextId(start), None);
    var history := [own, gone];
    NextIdFits(start);
    TwoSorted(own, gone);
    OwnPlaceIsNotOld(cursor, own);
    TooOldByFirst(history, cursor);
    s, t, steps := Stream(history, 0), Stream(history, 2), [Expire(2)];
    assert !Less(start, start);
    hide Sorted, Window, TooOld, ToReplay, After, Less, NextId, Agrees;
    AllExpires(history);
    assert Kept(s) == history && Kept(t) == [];
    OneAfter(gone, start);
    TwoAfter(own, gone, start);
    ReadDecides(s, t, cursor);
  }

  lemma NothingFollowsLast(t: Stream)
    requires WellFormed(t)
    ensures After(t.history, LAST_ID) == [] && After(Kept(t), LAST_ID) == []
  {
    forall e | e in t.history ensures !Less(LAST_ID, e.id) { assert Fits(e.id); }
    forall e | e in Kept(t) ensures e in t.history {
      var i :| 0 <= i < |Kept(t)| && Kept(t)[i] == e;
      assert t.history[t.cut + i] == e;
    }
    AfterEmptyIff(t.history, LAST_ID);
    AfterEmptyIff(Kept(t), LAST_ID);
  }

  /** An emptied log says nothing of what it held. */
  lemma ExpiredLogMisses(cursor: Cursor) returns (s: Stream)
    requires Agrees(cursor) && cursor.start.Some? && cursor.start.value != LAST_ID
    ensures Arises(s) && WellFormed(s) && Kept(s) == []
    ensures Worked(s, s, cursor) == Some([]) && !CompleteIfCaught(s, s, cursor)
  {
    var start := cursor.start.value;
    var gone := Entry(NextId(start), None);
    NextIdFits(start);
    OneSorted(gone);
    s := Stream([gone], 1);
    assert Kept(s) == [];
    assert !TooOld([], cursor);
    hide Sorted, After, Arises, TooOld, ToReplay, Less, NextId, Agrees;
    EveryLogArises(s);
    OneAfter(gone, start);
    ReadDecides(s, s, cursor);
  }
}
