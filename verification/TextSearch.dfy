/** Searching text as the frontend does: UTF-16 units, `indexOf` from a place. */
module TextSearch {
  import opened Options

  type CodeUnit = u: int | 0 <= u < 0x10000
  type Text = seq<CodeUnit>

  predicate OccursAt(text: Text, needle: Text, i: nat) {
    i + |needle| <= |text| && text[i..i + |needle|] == needle
  }

  /** A place beyond the end counts as the end. */
  function Clamp(text: Text, from: nat): nat { if from < |text| then from else |text| }

  function IndexOf(text: Text, needle: Text, from: nat): (r: Option<nat>)
    ensures r.Some? ==> Clamp(text, from) <= r.value && r.value + |needle| <= |text|
  {
    FindFrom(text, needle, Clamp(text, from))
  }

  function FindFrom(text: Text, needle: Text, from: nat): (r: Option<nat>)
    requires from <= |text|
    ensures r.Some? ==> from <= r.value && r.value + |needle| <= |text|
    decreases |text| - from
  {
    if OccursAt(text, needle, from) then Some(from)
    else if from == |text| then None
    else FindFrom(text, needle, from + 1)
  }

  lemma {:induction false} FindFromFinds(text: Text, needle: Text, from: nat)
    requires from <= |text|
    ensures var r := FindFrom(text, needle, from);
      && (r.Some? ==> OccursAt(text, needle, r.value))
      && (forall i: nat :: from <= i && (r.Some? ==> i < r.value) ==> !OccursAt(text, needle, i))
    decreases |text| - from
  {
    if !OccursAt(text, needle, from) && from < |text| { FindFromFinds(text, needle, from + 1); }
  }

  /** The first occurrence from there on, if there is any. */
  lemma IndexOfFinds(text: Text, needle: Text, from: nat)
    ensures var r := IndexOf(text, needle, from);
      && (r.Some? ==> OccursAt(text, needle, r.value))
      && (forall i: nat :: Clamp(text, from) <= i && (r.Some? ==> i < r.value) ==> !OccursAt(text, needle, i))
  {
    FindFromFinds(text, needle, Clamp(text, from));
  }

  /** In so many words: the place found is the least one, from `from` on and within the
      text, where the needle stands unit by unit. */
  lemma IndexOfIsLeast(text: Text, needle: Text, from: nat, i: nat)
    ensures var r := IndexOf(text, needle, from);
      && (r.Some? ==> from <= r.value || r.value == |text|)
      && (r.Some? ==> r.value + |needle| <= |text| && text[r.value..r.value + |needle|] == needle)
      && (from <= i && i + |needle| <= |text| && text[i..i + |needle|] == needle ==> r.Some? && r.value <= i)
  {
    IndexOfFinds(text, needle, from);
    if i + |needle| <= |text| && text[i..i + |needle|] == needle { assert OccursAt(text, needle, i); }
  }

  // ---- The search loop, turn by turn ----

  /** Where the loop stands after so many turns that each moved on by `step`. */
  function Turn(text: Text, needle: Text, step: nat, n: nat): Option<nat> {
    if n == 0 then IndexOf(text, needle, 0)
    else match Turn(text, needle, step, n - 1)
      case None => None
      case Some(i) => IndexOf(text, needle, i + step)
  }

  ghost predicate Ends(text: Text, needle: Text, step: nat) {
    exists n: nat :: Turn(text, needle, step, n).None?
  }

  lemma {:induction false} EmptyGoesOn(text: Text, step: nat, n: nat)
    ensures Turn(text, [], step, n).Some?
  {
    if n > 0 {
      EmptyGoesOn(text, step, n - 1);
      var from := Turn(text, [], step, n - 1).value + step;
      assert OccursAt(text, [], Clamp(text, from));
    } else {
      assert OccursAt(text, [], 0);
    }
  }

  /** The occurrences a scan visits that moves on by `step` after each. */
  function Scan(text: Text, needle: Text, from: nat, step: nat): seq<nat>
    requires step > 0 && needle != []
    decreases |text| - from
  {
    match IndexOf(text, needle, from)
    case None => []
    case Some(i) => [i] + Scan(text, needle, i + step, step)
  }

  lemma ScanFirst(text: Text, needle: Text, from: nat, step: nat)
    requires step > 0 && needle != []
    ensures var at := Scan(text, needle, from, step);
      IndexOf(text, needle, from) == if at != [] then Some(at[0]) else None
  {
  }

  lemma {:induction false} ScanNext(text: Text, needle: Text, from: nat, step: nat, k: nat)
    requires step > 0 && needle != [] && k < |Scan(text, needle, from, step)|
    ensures var at := Scan(text, needle, from, step);
      IndexOf(text, needle, at[k] + step) == if k + 1 < |at| then Some(at[k + 1]) else None
    decreases k
  {
    hide FindFrom;
    var i := IndexOf(text, needle, from).value;
    var rest := Scan(text, needle, i + step, step);
    assert Scan(text, needle, from, step) == [i] + rest;
    if k > 0 { ScanNext(text, needle, i + step, step, k - 1); }
  }

  /** Turn by turn the loop visits what the scan lists, and then ends. */
  lemma {:induction false} TurnsAreScan(text: Text, needle: Text, step: nat, n: nat)
    requires step > 0 && needle != []
    ensures var at := Scan(text, needle, 0, step);
      Turn(text, needle, step, n) == if n < |at| then Some(at[n]) else None
  {
    hide Scan, IndexOf;
    var at := Scan(text, needle, 0, step);
    if n == 0 {
      ScanFirst(text, needle, 0, step);
    } else {
      TurnsAreScan(text, needle, step, n - 1);
      if n - 1 < |at| { ScanNext(text, needle, 0, step, n - 1); }
    }
  }

  /** The loop ends if and only if there is something to look for. */
  lemma SearchEndsIff(text: Text, needle: Text, step: nat)
    requires step > 0
    ensures Ends(text, needle, step) <==> needle != []
  {
    if needle == [] {
      forall n: nat ensures Turn(text, needle, step, n).Some? { EmptyGoesOn(text, step, n); }
    } else {
      TurnsAreScan(text, needle, step, |Scan(text, needle, 0, step)|);
    }
  }

  lemma {:induction false} ScanVisits(text: Text, needle: Text, from: nat, step: nat)
    requires step > 0 && needle != []
    ensures forall i <- Scan(text, needle, from, step) :: i >= from && OccursAt(text, needle, i)
    decreases |text| - from
  {
    IndexOfFinds(text, needle, from);
    match IndexOf(text, needle, from)
    case None =>
    case Some(i) => ScanVisits(text, needle, i + step, step);
  }

  predicate Spaced(at: seq<nat>, step: nat) { forall i, j :: 0 <= i < j < |at| ==> at[i] + step <= at[j] }

  /** Two places a scan visits are at least `step` apart. */
  lemma {:induction false} ScanSteps(text: Text, needle: Text, from: nat, step: nat)
    requires step > 0 && needle != []
    ensures Spaced(Scan(text, needle, from, step), step)
    decreases |text| - from
  {
    if IndexOf(text, needle, from).Some? {
      var i := IndexOf(text, needle, from).value;
      var rest := Scan(text, needle, i + step, step);
      ScanSteps(text, needle, i + step, step);
      ScanVisits(text, needle, i + step, step);
      forall k | 0 <= k < |rest| ensures i + step <= rest[k] { assert rest[k] in rest; }
      assert Spaced([i] + rest, step);
    }
  }

  /** Every occurrence is visited, or begins within `step` after one that is. */
  lemma {:induction false} ScanCovers(text: Text, needle: Text, from: nat, step: nat, j: nat)
    requires step > 0 && needle != [] && from <= j && OccursAt(text, needle, j)
    ensures exists i <- Scan(text, needle, from, step) :: i <= j < i + step
    decreases |text| - from
  {
    IndexOfFinds(text, needle, from);
    var i := IndexOf(text, needle, from).value;
    var rest := Scan(text, needle, i + step, step);
    assert Scan(text, needle, from, step) == [i] + rest;
    if j < i + step {
      assert i in [i] + rest;
    } else {
      ScanCovers(text, needle, i + step, step, j);
      var x :| x in rest && x <= j < x + step;
      assert x in [i] + rest;
    }
  }

  /** One turn of the loop: the scan so far, one further place, and what is left. */
  lemma ScanStep(text: Text, needle: Text, done: seq<nat>, from: nat, step: nat)
    requires step > 0 && needle != [] && IndexOf(text, needle, from).Some?
    ensures var i := IndexOf(text, needle, from).value;
      done + Scan(text, needle, from, step) == (done + [i]) + Scan(text, needle, i + step, step)
  {
    var i := IndexOf(text, needle, from).value;
    Reassociate(done, [i], Scan(text, needle, i + step, step));
  }

  /** The `indexOf` loop every search runs: the places it visits in its turns, or
      nothing where the loop never ends. */
  method Occurrences(text: Text, needle: Text, step: nat) returns (at: Option<seq<nat>>)
    requires step > 0
    ensures at.None? <==> !Ends(text, needle, step)
    ensures at.Some? ==> needle != [] && at.value == Scan(text, needle, 0, step)
    ensures at.Some? ==> forall n: nat ::
      Turn(text, needle, step, n) == if n < |at.value| then Some(at.value[n]) else None
  {
    SearchEndsIff(text, needle, step);
    if needle == [] {
      return None;
    }
    var visited := Visits(text, needle, step);
    forall n: nat
      ensures Turn(text, needle, step, n) == if n < |visited| then Some(visited[n]) else None
    {
      TurnsAreScan(text, needle, step, n);
    }
    return Some(visited);
  }

  method Visits(text: Text, needle: Text, step: nat) returns (at: seq<nat>)
    requires step > 0 && needle != []
    ensures at == Scan(text, needle, 0, step)
  {
    hide FindFrom, OccursAt;
    at := [];
    var from := 0;
    var idx := IndexOf(text, needle, 0);
    while idx.Some?
      invariant idx == IndexOf(text, needle, from)
      invariant at + Scan(text, needle, from, step) == Scan(text, needle, 0, step)
      decreases |text| - from
    {
      ScanStep(text, needle, at, from, step);
      at := at + [idx.value];
      from := idx.value + step;
      idx := IndexOf(text, needle, from);
    }
  }
}
