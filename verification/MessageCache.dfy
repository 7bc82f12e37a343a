/** The paged message cache, and the map it stands for. */
module MessageCache {
  import opened Options
  import opened StableSort

  /** `created` ranks the creation time; a message in no thread has no parent or an
      empty one. */
  datatype Message = Message(
    id: string, created: int, parent: Option<string>, replies: Option<int>, deleted: Option<string>, content: string)

  type Page = seq<Message>

  datatype Edge = FirstPage | LastPage

  // ---- The operations ----

  predicate Has(page: Page, id: string) { exists i :: 0 <= i < |page| && page[i].id == id }

  predicate HasMessage(pages: seq<Page>, id: string) { exists p :: 0 <= p < |pages| && Has(pages[p], id) }

  function Replace(page: Page, id: string, updater: Message -> Message): (r: Page)
    ensures |r| == |page|
    ensures forall i :: 0 <= i < |page| ==> r[i] == if page[i].id == id then updater(page[i]) else page[i]
  {
    if page == [] then []
    else [if page[0].id == id then updater(page[0]) else page[0]] + Replace(page[1..], id, updater)
  }

  function PatchMessageById(pages: seq<Page>, id: string, updater: Message -> Message): seq<Page> {
    if pages == [] then []
    else [if Has(pages[0], id) then Replace(pages[0], id, updater) else pages[0]]
         + PatchMessageById(pages[1..], id, updater)
  }

  function NewestFirst(m: Message): int { -m.created }

  function Placed(page: Page, message: Message, sorted: bool): Page {
    var data := [message] + page;
    if sorted then Sort(data, NewestFirst) else data
  }

  function Target(pages: seq<Page>, edge: Edge): (t: nat)
    requires pages != []
    ensures t < |pages|
  {
    if edge == LastPage then |pages| - 1 else 0
  }

  function UpsertMessage(pages: seq<Page>, message: Message, edge: Edge, sorted: bool): seq<Page> {
    if HasMessage(pages, message.id) then PatchMessageById(pages, message.id, _ => message)
    else if pages == [] then pages
    else
      var t := Target(pages, edge);
      pages[t := Placed(pages[t], message, sorted)]
  }

  function Without(page: Page, id: string): Page {
    if page == [] then []
    else (if page[0].id != id then [page[0]] else []) + Without(page[1..], id)
  }

  function RemoveMessageById(pages: seq<Page>, id: string): seq<Page> {
    if pages == [] then []
    else [if Has(pages[0], id) then Without(pages[0], id) else pages[0]] + RemoveMessageById(pages[1..], id)
  }

  function Flat(pages: seq<Page>): Page {
    if pages == [] then [] else pages[0] + Flat(pages[1..])
  }

  function FindIn(data: Page, id: string): Option<Message> {
    if data == [] then None else if data[0].id == id then Some(data[0]) else FindIn(data[1..], id)
  }

  /** The start of a thread that has replies. */
  predicate KeepsAsStub(m: Message) {
    m.parent in {None, Some("")} && m.replies.Some? && m.replies.value > 0
  }

  function Stub(now: string): Message -> Message { (m: Message) => m.(deleted := Some(now)) }

  function DeleteMessageById(pages: seq<Page>, id: string, now: string): seq<Page> {
    var message := FindIn(Flat(pages), id);
    if message.Some? && KeepsAsStub(message.value)
    then PatchMessageById(pages, id, Stub(now))
    else RemoveMessageById(pages, id)
  }

  // ---- The map the pages stand for ----

  /** No id stands twice. */
  predicate Distinct(data: Page) {
    data == [] || (!Has(data[1..], data[0].id) && Distinct(data[1..]))
  }

  function MapOf(data: Page): map<string, Message> {
    if data == [] then map[] else MapOf(data[1..])[data[0].id := data[0]]
  }

  /** No id stands twice, on one page or across pages. */
  predicate Unique(pages: seq<Page>) { Distinct(Flat(pages)) }

  function View(pages: seq<Page>): map<string, Message> { MapOf(Flat(pages)) }

  lemma {:induction false} MapHas(data: Page, id: string)
    ensures id in MapOf(data) <==> Has(data, id)
  {
    if data != [] {
      MapHas(data[1..], id);
      assert data == [data[0]] + data[1..];
      HasJoin([data[0]], data[1..], id);
      assert Has([data[0]], id) <==> [data[0]][0].id == id;
    }
  }

  lemma HasJoin(a: Page, b: Page, id: string)
    ensures Has(a + b, id) <==> Has(a, id) || Has(b, id)
  {
    var c := a + b;
    if Has(a, id) {
      var i :| 0 <= i < |a| && a[i].id == id;
      assert c[i].id == id;
    }
    if Has(b, id) {
      var i :| 0 <= i < |b| && b[i].id == id;
      assert c[|a| + i].id == id;
    }
  }

  lemma {:induction false} HasFlat(pages: seq<Page>, id: string)
    ensures HasMessage(pages, id) <==> Has(Flat(pages), id)
  {
    if pages != [] {
      var rest := pages[1..];
      HasFlat(rest, id);
      HasJoin(pages[0], Flat(rest), id);
      forall p | 0 < p < |pages| ensures pages[p] == rest[p - 1] {}
      if HasMessage(rest, id) {
        var p :| 0 <= p < |rest| && Has(rest[p], id);
        assert pages[p + 1] == rest[p];
      }
    }
  }

  lemma {:induction false} FindInIs(data: Page, id: string)
    ensures FindIn(data, id) == if id in MapOf(data) then Some(MapOf(data)[id]) else None
  {
    if data != [] { FindInIs(data[1..], id); }
  }

  /** One message ahead of others. */
  lemma FrontActs(m: Message, rest: Page)
    ensures Distinct([m] + rest) <==> Distinct(rest) && m.id !in MapOf(rest)
    ensures MapOf([m] + rest) == MapOf(rest)[m.id := m]
  {
    assert ([m] + rest)[1..] == rest;
    MapHas(rest, m.id);
  }

  lemma FrontOf(data: Page)
    requires data != []
    ensures Distinct(data) <==> Distinct(data[1..]) && data[0].id !in MapOf(data[1..])
    ensures MapOf(data) == MapOf(data[1..])[data[0].id := data[0]]
  {
    MapHas(data[1..], data[0].id);
  }

  lemma {:induction false} MapJoin(a: Page, b: Page)
    ensures MapOf(a + b) == MapOf(b) + MapOf(a)
  {
    if a == [] {
      assert a + b == b;
    } else {
      MapJoin(a[1..], b);
      assert a + b == [a[0]] + (a[1..] + b);
      FrontActs(a[0], a[1..] + b);
    }
  }

  lemma {:induction false} DistinctJoin(a: Page, b: Page)
    ensures Distinct(a + b) <==> Distinct(a) && Distinct(b) && MapOf(a).Keys !! MapOf(b).Keys
  {
    if a == [] {
      assert a + b == b;
    } else {
      DistinctJoin(a[1..], b);
      assert a + b == [a[0]] + (a[1..] + b);
      FrontActs(a[0], a[1..] + b);
      FrontOf(a);
      MapJoin(a[1..], b);
    }
  }

  // ---- Patching ----

  lemma {:induction false} FlatPatch(pages: seq<Page>, id: string, updater: Message -> Message)
    ensures Flat(PatchMessageById(pages, id, updater)) == Replace(Flat(pages), id, updater)
    ensures |PatchMessageById(pages, id, updater)| == |pages|
  {
    if pages != [] {
      FlatPatch(pages[1..], id, updater);
      var patched := PatchMessageById(pages, id, updater);
      assert patched[1..] == PatchMessageById(pages[1..], id, updater);
      assert patched[0] == Replace(pages[0], id, updater);
    }
  }

  lemma ReplaceNone(data: Page, id: string, updater: Message -> Message)
    requires id !in MapOf(data)
    ensures Replace(data, id, updater) == data
  {
    MapHas(data, id);
  }

  /** The new message may keep its id or take one nobody has. */
  predicate Fits(v: map<string, Message>, id: string, updater: Message -> Message) {
    id in v ==> updater(v[id]).id == id || updater(v[id]).id !in v
  }

  function Patched(v: map<string, Message>, id: string, updater: Message -> Message): map<string, Message> {
    if id in v then (v - {id})[updater(v[id]).id := updater(v[id])] else v
  }

  lemma {:induction false} ReplaceActsIff(data: Page, id: string, updater: Message -> Message)
    requires Distinct(data)
    ensures var after := Replace(data, id, updater);
      && (Distinct(after) <==> Fits(MapOf(data), id, updater))
      && (Distinct(after) ==> MapOf(after) == Patched(MapOf(data), id, updater))
  {
    if data != [] {
      var m, rest := data[0], data[1..];
      FrontOf(data);
      if m.id == id {
        ReplaceNone(rest, id, updater);
        FrontActs(updater(m), rest);
        assert MapOf(data) - {id} == MapOf(rest);
      } else {
        ReplaceActsIff(rest, id, updater);
        FrontActs(m, Replace(rest, id, updater));
      }
    }
  }

  /** Patching keeps ids unique if and only if the message is not given another
      message's id, and then it acts on the map; without the message it does nothing. */
  lemma PatchActsIff(pages: seq<Page>, id: string, updater: Message -> Message)
    requires Unique(pages)
    ensures var v, after := View(pages), PatchMessageById(pages, id, updater);
      && (Unique(after) <==> (id in v ==> updater(v[id]).id == id || updater(v[id]).id !in v))
      && (Unique(after) && id in v ==> View(after) == (v - {id})[updater(v[id]).id := updater(v[id])])
      && (id !in v ==> View(after) == v)
  {
    FlatPatch(pages, id, updater);
    ReplaceActsIff(Flat(pages), id, updater);
  }

  // ---- Removing ----

  lemma {:induction false} WithoutJoin(a: Page, b: Page, id: string)
    ensures Without(a + b, id) == Without(a, id) + Without(b, id)
  {
    if a == [] {
      assert a + b == b;
    } else {
      assert (a + b)[1..] == a[1..] + b;
      WithoutJoin(a[1..], b, id);
    }
  }

  lemma {:induction false} WithoutNone(page: Page, id: string)
    requires !Has(page, id)
    ensures Without(page, id) == page
  {
    if page != [] {
      HasJoin([page[0]], page[1..], id);
      assert [page[0]] + page[1..] == page;
      WithoutNone(page[1..], id);
    }
  }

  lemma {:induction false} FlatRemove(pages: seq<Page>, id: string)
    ensures Flat(RemoveMessageById(pages, id)) == Without(Flat(pages), id)
    ensures |RemoveMessageById(pages, id)| == |pages|
  {
    if pages != [] {
      FlatRemove(pages[1..], id);
      if !Has(pages[0], id) { WithoutNone(pages[0], id); }
      WithoutJoin(pages[0], Flat(pages[1..]), id);
      assert RemoveMessageById(pages, id)[1..] == RemoveMessageById(pages[1..], id);
    }
  }

  lemma {:induction false} WithoutActs(data: Page, id: string)
    requires Distinct(data)
    ensures Distinct(Without(data, id)) && MapOf(Without(data, id)) == MapOf(data) - {id}
  {
    if data != [] {
      var m, rest := data[0], data[1..];
      FrontOf(data);
      WithoutActs(rest, id);
      if m.id == id {
        assert Without(data, id) == Without(rest, id);
      } else {
        assert Without(data, id) == [m] + Without(rest, id);
        FrontActs(m, Without(rest, id));
      }
    }
  }

  /** Removing acts on the map, and keeps ids unique. */
  lemma RemoveActs(pages: seq<Page>, id: string)
    requires Unique(pages)
    ensures var after := RemoveMessageById(pages, id);
      Unique(after) && View(after) == View(pages) - {id}
  {
    FlatRemove(pages, id);
    WithoutActs(Flat(pages), id);
  }

  /** It is in no thread, has no parent or an empty one, and there are replies to it. */
  predicate StartsThread(m: Message) {
    && (m.parent.Some? ==> m.parent.value == "")
    && m.replies.Some? && m.replies.value > 0
  }

  /** Deleting leaves a stub of a thread's start that has replies, and removes any other. */
  lemma DeleteActs(pages: seq<Page>, id: string, now: string)
    requires Unique(pages)
    ensures var v, after := View(pages), DeleteMessageById(pages, id, now);
      && Unique(after)
      && View(after) == if id in v && StartsThread(v[id]) then v[id := v[id].(deleted := Some(now))] else v - {id}
  {
    var v := View(pages);
    FindInIs(Flat(pages), id);
    if id in v && KeepsAsStub(v[id]) {
      MapIds(Flat(pages), id);
      PatchActsIff(pages, id, Stub(now));
      assert (v - {id})[id := Stub(now)(v[id])] == v[id := v[id].(deleted := Some(now))];
    } else {
      RemoveActs(pages, id);
    }
  }

  lemma {:induction false} MapIds(data: Page, id: string)
    requires id in MapOf(data)
    ensures MapOf(data)[id].id == id
  {
    if data[0].id != id { MapIds(data[1..], id); }
  }

  // ---- Inserting ----

  lemma {:induction false} FlatSplit(pages: seq<Page>, t: nat, data: Page)
    requires t < |pages|
    ensures Flat(pages[t := data]) == Flat(pages[..t]) + data + Flat(pages[t + 1..])
  {
    if t == 0 {
      assert pages[t := data][1..] == pages[1..];
    } else {
      var rest := pages[1..];
      FlatSplit(rest, t - 1, data);
      assert pages[t := data][1..] == rest[t - 1 := data];
      assert pages[..t][1..] == rest[..t - 1] && pages[t + 1..] == rest[t..];
    }
  }

  lemma {:induction false} InsertActs(s: Page, x: Message, key: Message -> int)
    requires Distinct(s) && x.id !in MapOf(s)
    ensures var r := Insert(s, x, key);
      Distinct(r) && MapOf(r) == MapOf(s)[x.id := x]
  {
    FrontActs(x, []);
    if s == [] || key(s[|s| - 1]) <= key(x) {
      DistinctJoin(s, [x]);
      MapJoin(s, [x]);
    } else {
      var init, last := s[..|s| - 1], s[|s| - 1];
      assert s == init + [last];
      FrontActs(last, []);
      DistinctJoin(init, [last]);
      MapJoin(init, [last]);
      InsertActs(init, x, key);
      DistinctJoin(Insert(init, x, key), [last]);
      MapJoin(Insert(init, x, key), [last]);
    }
  }

  lemma {:induction false} SortActs(s: Page, key: Message -> int)
    requires Distinct(s)
    ensures Distinct(Sort(s, key)) && MapOf(Sort(s, key)) == MapOf(s)
  {
    if s != [] {
      var init, last := s[..|s| - 1], s[|s| - 1];
      assert s == init + [last];
      FrontActs(last, []);
      DistinctJoin(init, [last]);
      MapJoin(init, [last]);
      SortActs(init, key);
      InsertActs(Sort(init, key), last, key);
    }
  }

  lemma PlacedActs(page: Page, m: Message, sorted: bool)
    requires Distinct(page) && m.id !in MapOf(page)
    ensures var placed := Placed(page, m, sorted);
      Distinct(placed) && MapOf(placed) == MapOf(page)[m.id := m]
  {
    FrontActs(m, page);
    if sorted { SortActs([m] + page, NewestFirst); }
  }

  /** `y` is `x` with one message more, as far as the map goes. */
  predicate Gains(x: Page, y: Page, m: Message) {
    Distinct(x) && Distinct(y) && m.id !in MapOf(x) && MapOf(y) == MapOf(x)[m.id := m]
  }

  lemma GainsAhead(x: Page, y: Page, b: Page, m: Message)
    requires Distinct(x + b) && m.id !in MapOf(x + b) && (Distinct(x) && m.id !in MapOf(x) ==> Gains(x, y, m))
    ensures Gains(x + b, y + b, m)
  {
    DistinctJoin(x, b);
    MapJoin(x, b);
    DistinctJoin(y, b);
    MapJoin(y, b);
  }

  lemma GainsBehind(a: Page, x: Page, y: Page, m: Message)
    requires Distinct(a + x) && m.id !in MapOf(a + x) && (Distinct(x) && m.id !in MapOf(x) ==> Gains(x, y, m))
    ensures Gains(a + x, a + y, m)
  {
    DistinctJoin(a, x);
    MapJoin(a, x);
    DistinctJoin(a, y);
    MapJoin(a, y);
  }

  lemma InsertPageActs(pages: seq<Page>, t: nat, m: Message, sorted: bool)
    requires Unique(pages) && t < |pages| && m.id !in View(pages)
    ensures var after := pages[t := Placed(pages[t], m, sorted)];
      Unique(after) && View(after) == View(pages)[m.id := m]
  {
    var a, b := Flat(pages[..t]), Flat(pages[t + 1..]);
    var placed := Placed(pages[t], m, sorted);
    assert pages[t := pages[t]] == pages;
    FlatSplit(pages, t, pages[t]);
    FlatSplit(pages, t, placed);
    if Distinct(pages[t]) && m.id !in MapOf(pages[t]) { PlacedActs(pages[t], m, sorted); }
    DistinctJoin(a + pages[t], b);
    MapJoin(a + pages[t], b);
    GainsBehind(a, pages[t], placed, m);
    GainsAhead(a + pages[t], a + placed, b, m);
  }

  /** Upserting puts the message into the map, unless there is no page to take a new
      one, and keeps ids unique. */
  lemma UpsertActsIff(pages: seq<Page>, m: Message, edge: Edge, sorted: bool)
    requires Unique(pages)
    ensures var after := UpsertMessage(pages, m, edge, sorted);
      && Unique(after)
      && (View(after) == View(pages)[m.id := m] <==> pages != [])
      && (pages == [] ==> after == pages)
  {
    HasFlat(pages, m.id);
    MapHas(Flat(pages), m.id);
    if m.id in View(pages) {
      PatchActsIff(pages, m.id, _ => m);
      assert (View(pages) - {m.id})[m.id := m] == View(pages)[m.id := m];
    } else if pages != [] {
      InsertPageActs(pages, Target(pages, edge), m, sorted);
    } else {
      assert View(pages) == map[];
      assert m.id in View(pages)[m.id := m];
    }
  }

  // ---- Places ----

  /** A patch leaves every message in its place, and all but the one it names alone. */
  lemma {:induction false} PatchKeepsPlaces(pages: seq<Page>, id: string, updater: Message -> Message, p: nat, k: nat)
    requires p < |pages| && k < |pages[p]|
    ensures var after, m := PatchMessageById(pages, id, updater), pages[p][k];
      && |after| == |pages| && |after[p]| == |pages[p]|
      && after[p][k] == if m.id == id then updater(m) else m
  {
    FlatPatch(pages, id, updater);
    if p > 0 {
      PatchKeepsPlaces(pages[1..], id, updater, p - 1, k);
      assert PatchMessageById(pages, id, updater)[1..] == PatchMessageById(pages[1..], id, updater);
    }
  }

  /** So does the upsert of a message that is there: it takes the place of the old one. */
  lemma UpsertReplaces(pages: seq<Page>, m: Message, edge: Edge, sorted: bool, p: nat, k: nat)
    requires p < |pages| && k < |pages[p]| && HasMessage(pages, m.id)
    ensures var after, was := UpsertMessage(pages, m, edge, sorted), pages[p][k];
      && |after| == |pages| && |after[p]| == |pages[p]|
      && after[p][k] == if was.id == m.id then m else was
  {
    PatchKeepsPlaces(pages, m.id, _ => m, p, k);
  }

  lemma {:induction false} HasAt(pages: seq<Page>, p: nat, k: nat)
    requires p < |pages| && k < |pages[p]|
    ensures Has(pages[p], pages[p][k].id) && pages[p][k].id in View(pages)
  {
    assert Has(pages[p], pages[p][k].id);
    HasFlat(pages, pages[p][k].id);
    MapHas(Flat(pages), pages[p][k].id);
  }

  lemma WithoutFront(m: Message, rest: Page)
    ensures Without([m] + rest, m.id) == Without(rest, m.id)
  {
    assert ([m] + rest)[1..] == rest;
  }

  lemma WithoutOne(page: Page, k: nat)
    requires Distinct(page) && k < |page|
    ensures Without(page, page[k].id) == page[..k] + page[k + 1..]
  {
    hide Distinct, MapOf, Has, Without;
    var a, m, b := page[..k], page[k], page[k + 1..];
    assert page == a + ([m] + b);
    DistinctJoin(a, [m] + b);
    FrontActs(m, b);
    MapHas(a, m.id);
    MapHas(b, m.id);
    WithoutJoin(a, [m] + b, m.id);
    WithoutNone(a, m.id);
    WithoutFront(m, b);
    WithoutNone(b, m.id);
  }

  lemma PagesApart(pages: seq<Page>)
    requires pages != [] && Unique(pages)
    ensures Distinct(pages[0]) && Unique(pages[1..])
    ensures MapOf(pages[0]).Keys !! View(pages[1..]).Keys
  {
    DistinctJoin(pages[0], Flat(pages[1..]));
  }

  lemma {:induction false} RemoveNone(pages: seq<Page>, id: string)
    requires id !in View(pages)
    ensures RemoveMessageById(pages, id) == pages
  {
    if pages != [] {
      MapJoin(pages[0], Flat(pages[1..]));
      MapHas(pages[0], id);
      RemoveNone(pages[1..], id);
    }
  }

  /** Removing takes the message out of its place, and what was behind it on the page
      moves up. */
  lemma {:induction false} RemoveClosesUp(pages: seq<Page>, p: nat, k: nat)
    requires Unique(pages) && p < |pages| && k < |pages[p]|
    ensures RemoveMessageById(pages, pages[p][k].id) == pages[p := pages[p][..k] + pages[p][k + 1..]]
  {
    var rest, id := pages[1..], pages[p][k].id;
    PagesApart(pages);
    MapHas(pages[0], id);
    if p == 0 {
      HasAt(pages, 0, k);
      RemoveNone(rest, id);
      WithoutOne(pages[0], k);
    } else {
      HasAt(rest, p - 1, k);
      RemoveClosesUp(rest, p - 1, k);
    }
  }

  /** Unsorted, a new message stands ahead of its page, the first or the last one. */
  lemma UpsertLeads(pages: seq<Page>, m: Message, edge: Edge)
    requires pages != [] && !HasMessage(pages, m.id)
    ensures var t := if edge == FirstPage then 0 else |pages| - 1;
      UpsertMessage(pages, m, edge, false) == pages[t := [m] + pages[t]]
  {
  }

  /** A sorted insert leaves its page newest first, messages of one age in their
      order with the new one ahead, and every other page alone. */
  lemma UpsertSorts(pages: seq<Page>, m: Message, edge: Edge)
    requires pages != [] && !HasMessage(pages, m.id)
    ensures var t, after := if edge == FirstPage then 0 else |pages| - 1, UpsertMessage(pages, m, edge, true);
      && |after| == |pages| && (forall i, j :: 0 <= i < j < |after[t]| ==> after[t][i].created >= after[t][j].created)
      && multiset(after[t]) == multiset([m] + pages[t])
      && (forall p :: 0 <= p < |pages| && p != t ==> after[p] == pages[p])
      && forall k :: WithKey(after[t], NewestFirst, k) == WithKey([m] + pages[t], NewestFirst, k)
  {
    var data := [m] + pages[Target(pages, edge)];
    SortKeeps(data, NewestFirst);
    var placed := Sort(data, NewestFirst);
    forall i, j | 0 <= i < j < |placed| ensures placed[i].created >= placed[j].created {
      assert NewestFirst(placed[i]) <= NewestFirst(placed[j]);
    }
    forall k ensures WithKey(Sort(data, NewestFirst), NewestFirst, k) == WithKey(data, NewestFirst, k) {
      SortStable(data, NewestFirst, k);
    }
  }

  // ---- Whole runs ----

  datatype Op =
    | Upsert(message: Message, edge: Edge, sorted: bool)
    | Patch(id: string, updater: Message -> Message)
    | Remove(id: string)
    | Delete(id: string, now: string)

  function Apply(pages: seq<Page>, op: Op): seq<Page> {
    match op
    case Upsert(m, edge, sorted) => UpsertMessage(pages, m, edge, sorted)
    case Patch(id, updater) => PatchMessageById(pages, id, updater)
    case Remove(id) => RemoveMessageById(pages, id)
    case Delete(id, now) => DeleteMessageById(pages, id, now)
  }

  /** The same operation on a map, which knows no pages and no order. */
  function Act(v: map<string, Message>, op: Op): map<string, Message> {
    match op
    case Upsert(m, _, _) => v[m.id := m]
    case Patch(id, updater) => Patched(v, id, updater)
    case Remove(id) => v - {id}
    case Delete(id, now) =>
      if id in v && StartsThread(v[id]) then v[id := v[id].(deleted := Some(now))] else v - {id}
  }

  predicate OpFits(v: map<string, Message>, op: Op) { op.Patch? ==> Fits(v, op.id, op.updater) }

  lemma PagesStay(pages: seq<Page>, op: Op)
    ensures |Apply(pages, op)| == |pages|
  {
    match op
    case Upsert(m, edge, sorted) => FlatPatch(pages, m.id, _ => m);
    case Patch(id, updater) => FlatPatch(pages, id, updater);
    case Remove(id) => FlatRemove(pages, id);
    case Delete(id, now) =>
      FlatPatch(pages, id, Stub(now));
      FlatRemove(pages, id);
  }

  /** Unless a patch gives a message another's id, an operation does to the map what
      it should, and only then are ids still unique. */
  lemma ApplyActsIff(pages: seq<Page>, op: Op)
    requires Unique(pages) && pages != []
    ensures var after := Apply(pages, op);
      && after != []
      && (Unique(after) <==> OpFits(View(pages), op))
      && (Unique(after) ==> View(after) == Act(View(pages), op))
  {
    PagesStay(pages, op);
    match op
    case Upsert(m, edge, sorted) => UpsertActsIff(pages, m, edge, sorted);
    case Patch(id, updater) => PatchActsIff(pages, id, updater);
    case Remove(id) => RemoveActs(pages, id);
    case Delete(id, now) => DeleteActs(pages, id, now);
  }

  function ApplyAll(pages: seq<Page>, ops: seq<Op>): seq<Page>
    decreases |ops|
  {
    if ops == [] then pages else ApplyAll(Apply(pages, ops[0]), ops[1..])
  }

  function ActAll(v: map<string, Message>, ops: seq<Op>): map<string, Message>
    decreases |ops|
  {
    if ops == [] then v else ActAll(Act(v, ops[0]), ops[1..])
  }

  predicate AllFit(v: map<string, Message>, ops: seq<Op>)
    decreases |ops|
  {
    ops == [] || (OpFits(v, ops[0]) && AllFit(Act(v, ops[0]), ops[1..]))
  }

  /** Over any run the pages stand for what the same run makes of a plain map. */
  lemma {:induction false} CacheRefinesMap(pages: seq<Page>, ops: seq<Op>)
    requires Unique(pages) && pages != [] && AllFit(View(pages), ops)
    ensures Unique(ApplyAll(pages, ops)) && View(ApplyAll(pages, ops)) == ActAll(View(pages), ops)
    decreases |ops|
  {
    if ops != [] {
      ApplyActsIff(pages, ops[0]);
      CacheRefinesMap(Apply(pages, ops[0]), ops[1..]);
    }
  }
}
