/** The platform's sort: by an integer key, keeping the order of equal keys. */
module StableSort {
  /** `x` goes after everything whose key is no greater. */
  function Insert<T>(s: seq<T>, x: T, key: T -> int): seq<T> {
    if s == [] || key(s[|s| - 1]) <= key(x) then s + [x]
    else Insert(s[..|s| - 1], x, key) + [s[|s| - 1]]
  }

  function Sort<T>(s: seq<T>, key: T -> int): seq<T> {
    if s == [] then [] else Insert(Sort(s[..|s| - 1], key), s[|s| - 1], key)
  }

  ghost predicate SortedBy<T>(s: seq<T>, key: T -> int) {
    forall i, j :: 0 <= i < j < |s| ==> key(s[i]) <= key(s[j])
  }

  /** The elements with one key, in order. */
  function WithKey<T>(s: seq<T>, key: T -> int, k: int): seq<T> {
    if s == [] then []
    else WithKey(s[..|s| - 1], key, k) + if key(s[|s| - 1]) == k then [s[|s| - 1]] else []
  }

  lemma {:induction false} InsertMembers<T>(s: seq<T>, x: T, key: T -> int)
    ensures multiset(Insert(s, x, key)) == multiset(s) + multiset{x}
    ensures |Insert(s, x, key)| == |s| + 1
  {
    if s != [] && key(s[|s| - 1]) > key(x) {
      assert s == s[..|s| - 1] + [s[|s| - 1]];
      InsertMembers(s[..|s| - 1], x, key);
    }
  }

  ghost predicate AtMost<T>(s: seq<T>, key: T -> int, bound: int) {
    forall i :: 0 <= i < |s| ==> key(s[i]) <= bound
  }

  lemma {:induction false} InsertKeeps<T>(s: seq<T>, x: T, key: T -> int, bound: int)
    requires SortedBy(s, key) && AtMost(s, key, bound) && key(x) <= bound
    ensures SortedBy(Insert(s, x, key), key) && AtMost(Insert(s, x, key), key, bound)
  {
    if s != [] && key(s[|s| - 1]) > key(x) {
      InsertKeeps(s[..|s| - 1], x, key, key(s[|s| - 1]));
    }
  }

  lemma SortedBound<T>(s: seq<T>, x: T, key: T -> int) returns (bound: int)
    requires SortedBy(s, key)
    ensures AtMost(s, key, bound) && key(x) <= bound
  {
    bound := if s != [] && key(s[|s| - 1]) > key(x) then key(s[|s| - 1]) else key(x);
  }

  lemma {:induction false} InsertStable<T>(s: seq<T>, x: T, key: T -> int, k: int)
    requires SortedBy(s, key)
    ensures WithKey(Insert(s, x, key), key, k)
         == WithKey(s, key, k) + if key(x) == k then [x] else []
  {
    if s == [] || key(s[|s| - 1]) <= key(x) {
      assert (s + [x])[..|s|] == s;
    } else {
      var init := s[..|s| - 1];
      InsertStable(init, x, key, k);
      var r := Insert(init, x, key);
      assert (r + [s[|s| - 1]])[..|r|] == r;
      if key(x) == k {
        NoneAbove(s, key, k);
      }
    }
  }

  /** In a sorted sequence whose last key is not `k`, the last element adds nothing. */
  lemma NoneAbove<T>(s: seq<T>, key: T -> int, k: int)
    requires s != [] && key(s[|s| - 1]) > k
    ensures WithKey(s, key, k) == WithKey(s[..|s| - 1], key, k)
  {
  }

  /** Sorted, the same elements, and stable. */
  lemma {:induction false} SortKeeps<T>(s: seq<T>, key: T -> int)
    ensures var r := Sort(s, key);
      SortedBy(r, key) && multiset(r) == multiset(s) && |r| == |s|
  {
    if s != [] {
      assert s == s[..|s| - 1] + [s[|s| - 1]];
      SortKeeps(s[..|s| - 1], key);
      var bound := SortedBound(Sort(s[..|s| - 1], key), s[|s| - 1], key);
      InsertKeeps(Sort(s[..|s| - 1], key), s[|s| - 1], key, bound);
      InsertMembers(Sort(s[..|s| - 1], key), s[|s| - 1], key);
    }
  }

  lemma {:induction false} SortStable<T>(s: seq<T>, key: T -> int, k: int)
    ensures WithKey(Sort(s, key), key, k) == WithKey(s, key, k)
  {
    if s != [] {
      SortStable(s[..|s| - 1], key, k);
      SortKeeps(s[..|s| - 1], key);
      InsertStable(Sort(s[..|s| - 1], key), s[|s| - 1], key, k);
    }
  }

  lemma SortMembers<T>(s: seq<T>, key: T -> int)
    ensures forall i :: 0 <= i < |Sort(s, key)| ==> Sort(s, key)[i] in s
    ensures forall i :: 0 <= i < |s| ==> s[i] in Sort(s, key)
  {
    SortKeeps(s, key);
    var r := Sort(s, key);
    forall i | 0 <= i < |r| ensures r[i] in s { assert r[i] in multiset(r) && r[i] in multiset(s); }
    forall i | 0 <= i < |s| ensures s[i] in r { assert s[i] in multiset(s) && s[i] in multiset(r); }
  }
}
