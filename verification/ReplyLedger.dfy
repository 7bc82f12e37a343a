/** The ledger of replies already counted, which forgets the oldest. */
module ReplyLedger {
  const LIMIT := 500

  /** The set in its order of insertion once one id has been offered. The oldest goes
      when there are too many, but an empty oldest id counts as none and stays. */
  function Offered(counted: seq<string>, id: string): seq<string> {
    if id in counted then counted
    else
      var more := counted + [id];
      if |more| > LIMIT && more[0] != "" then more[1..] else more
  }

  class Ledger {
    var counted: seq<string>

    constructor ()
      ensures counted == []
    {
      counted := [];
    }

    method ClaimReplyCount(id: string) returns (claimed: bool)
      modifies this
      ensures claimed <==> id !in old(counted)
      ensures counted == Offered(old(counted), id)
    {
      if id in counted {
        return false;
      }
      counted := counted + [id];
      if |counted| > LIMIT {
        var oldest := counted[0];
        if oldest != "" {
          counted := counted[1..];
        }
      }
      return true;
    }
  }

  /** What the ledger holds after a run of offers. */
  function Counted(ids: seq<string>): seq<string> {
    if ids == [] then [] else Offered(Counted(ids[..|ids| - 1]), ids[|ids| - 1])
  }

  /** The ids of a run that were claimed, in order. */
  function Accepted(ids: seq<string>): seq<string> {
    if ids == [] then []
    else
      var init, id := ids[..|ids| - 1], ids[|ids| - 1];
      Accepted(init) + if id in Counted(init) then [] else [id]
  }

  /** How many accepted ids are beyond the limit. */
  function Over(accepted: seq<string>): (n: nat)
    ensures n <= |accepted|
  {
    if |accepted| > 500 then |accepted| - 500 else 0
  }

  /** The ledger is a tail of the accepted ids, and reaches further back than the limit
      only where it begins with the empty id. */
  lemma {:induction false} LedgerIsTail(ids: seq<string>) returns (k: nat)
    ensures var a := Accepted(ids);
      && k <= Over(a) && Counted(ids) == a[k..]
      && "" !in a[..k] && (k < Over(a) ==> a[k] == "")
  {
    if ids == [] {
      k := 0;
    } else {
      var init, id := ids[..|ids| - 1], ids[|ids| - 1];
      k := LedgerIsTail(init);
      var was, a := Accepted(init), Accepted(ids);
      if id !in Counted(init) {
        assert a == was + [id] && a[k..] == was[k..] + [id];
        assert a[..k] == was[..k];
        if |a| - k > LIMIT && a[k] != "" {
          assert a[k..][1..] == a[k + 1..];
          assert a[..k + 1] == a[..k] + [a[k]];
          k := k + 1;
        }
      } else {
        assert a == was;
      }
    }
  }

  /** The ledger holds exactly the last 500 ids it accepted if and only if the empty id
      is not among the earlier ones. */
  lemma LastAcceptedIff(ids: seq<string>)
    ensures var a := Accepted(ids);
      Counted(ids) == a[Over(a)..] <==> "" !in a[..Over(a)]
  {
    var a := Accepted(ids);
    var k := LedgerIsTail(ids);
    if k < Over(a) {
      assert a[..Over(a)][k] == "";
      assert |Counted(ids)| != |a[Over(a)..]|;
    }
  }

  lemma InTail(s: seq<string>, k: nat, i: nat)
    requires k <= i < |s|
    ensures s[i] in s[k..]
  {
    assert s[k..][i - k] == s[i];
  }

  /** No id is counted twice while fewer than 500 others are accepted in between. */
  lemma {:induction false} CountedAgainOnlyAfter(ids: seq<string>, i: nat, j: nat)
    requires i < j < |Accepted(ids)| && Accepted(ids)[i] == Accepted(ids)[j]
    ensures j - i > 500 && Accepted(ids)[i] != ""
  {
    var init, id := ids[..|ids| - 1], ids[|ids| - 1];
    var was := Accepted(init);
    if j < |was| {
      CountedAgainOnlyAfter(init, i, j);
    } else {
      var k := LedgerIsTail(init);
      if i >= k { InTail(was, k, i); }
      assert was[..k][i] == id;
    }
  }

  /** Once 500 others have been accepted, an id other than the empty one counts again. */
  lemma CountedAgainAfter(ids: seq<string>, id: string)
    requires var a := Accepted(ids); "" !in a[..Over(a)] && id !in a[Over(a)..]
    ensures Accepted(ids + [id]) == Accepted(ids) + [id]
  {
    LastAcceptedIff(ids);
    assert (ids + [id])[..|ids|] == ids;
  }

  /** A word of so many letters. */
  function Word(n: nat): string { if n == 0 then "" else Word(n - 1) + "a" }

  lemma {:induction false} WordLength(n: nat)
    ensures |Word(n)| == n
  {
    if n > 0 { WordLength(n - 1); }
  }

  /** The empty id, then words of one letter, two letters, and so on. */
  function Words(n: nat): seq<string> { if n == 0 then [""] else Words(n - 1) + [Word(n)] }

  lemma {:induction false} WordsDiffer(n: nat)
    ensures |Words(n)| == n + 1 && Words(n)[0] == "" && forall w <- Words(n) :: |w| <= n
  {
    if n > 0 {
      WordsDiffer(n - 1);
      WordLength(n);
    }
  }

  lemma CountedLast(ids: seq<string>)
    requires ids != []
    ensures Counted(ids) == Offered(Counted(ids[..|ids| - 1]), ids[|ids| - 1])
  {
  }

  /** Offered first, the empty id stays, and nothing behind it is ever forgotten: for
      every number some run leaves the ledger larger. */
  lemma {:induction false} GrowsWithoutBound(n: nat)
    ensures Words(n)[0] == "" && Counted(Words(n)) == Words(n) && |Counted(Words(n))| == n + 1
  {
    WordsDiffer(n);
    if n == 0 {
      assert Words(0)[..0] == [];
      assert [] + [""] == [""];
    } else {
      GrowsWithoutBound(n - 1);
      WordsDiffer(n - 1);
      WordLength(n);
      hide Counted, Word;
      assert Words(n)[..|Words(n)| - 1] == Words(n - 1) && Word(n) !in Words(n - 1);
      CountedLast(Words(n));
    }
  }
}
