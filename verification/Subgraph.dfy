/**
 The id cursor loop of `get_all_pairs` in app/chain/subgraph.py, against a server whose set
 of pairs may grow between requests.
 */
module Subgraph {

  const BATCH_SIZE := 1000

  // ---------- The order of ids ----------

  /** Lexicographic order, the order of `id_gt` and `orderBy: id`. */
  predicate Less(a: string, b: string) {
    b != "" && (a == "" || a[0] < b[0] || (a[0] == b[0] && Less(a[1..], b[1..])))
  }

  lemma {:induction false} LessIrreflexive(a: string)
    ensures !Less(a, a)
  {
    if a != "" { LessIrreflexive(a[1..]); }
  }

  lemma {:induction false} LessTransitive(a: string, b: string, c: string)
    requires Less(a, b) && Less(b, c)
    ensures Less(a, c)
  {
    if a != "" && a[0] == b[0] == c[0] { LessTransitive(a[1..], b[1..], c[1..]); }
  }

  lemma {:induction false} LessTotal(a: string, b: string)
    ensures Less(a, b) || a == b || Less(b, a)
  {
    if a != "" && b != "" && a[0] == b[0] {
      LessTotal(a[1..], b[1..]);
      assert a == [a[0]] + a[1..] && b == [b[0]] + b[1..];
    }
  }

  predicate Ascending(ids: seq<string>) {
    forall i, j :: 0 <= i < j < |ids| ==> Less(ids[i], ids[j])
  }

  // ---------- The server ----------

  /** The first 1000 ids of `pairs` above `last`, in order. */
  predicate IsBatch(pairs: set<string>, last: string, batch: seq<string>) {
    && |batch| <= BATCH_SIZE && Ascending(batch)
    && (forall id <- batch :: id in pairs && Less(last, id))
    && (forall id <- pairs :: Less(last, id) ==>
          id in batch || (|batch| == BATCH_SIZE && Less(batch[BATCH_SIZE - 1], id)))
  }

  /** `pairs(k)` is the server's set at request k; it only grows and stays within `all`. */
  ghost predicate Grows(pairs: nat -> set<string>, all: set<string>) {
    forall k: nat :: pairs(k) <= pairs(k + 1) && pairs(k) <= all
  }

  lemma {:induction false} Later(pairs: nat -> set<string>, all: set<string>, j: nat, k: nat)
    requires Grows(pairs, all) && j <= k
    ensures pairs(j) <= pairs(k)
    decreases k - j
  {
    if j < k { Later(pairs, all, j + 1, k); }
  }

  function Cursor(ids: seq<string>): string {
    if ids == [] then "" else ids[|ids| - 1]
  }

  /** The ids the loop may still meet. */
  ghost function Ahead(all: set<string>, last: string): set<string> {
    set id | id in all && Less(last, id)
  }

  lemma AheadShrinks(all: set<string>, last: string, next: string)
    requires next in all && Less(last, next)
    ensures Ahead(all, next) < Ahead(all, last)
  {
    LessIrreflexive(next);
    forall id | id in Ahead(all, next) ensures id in Ahead(all, last) {
      LessTransitive(last, next, id);
    }
    assert next in Ahead(all, last) && next !in Ahead(all, next);
  }

  lemma AppendAscending(ids: seq<string>, batch: seq<string>)
    requires Ascending(ids) && Ascending(batch) && forall id <- batch :: Less(Cursor(ids), id)
    ensures Ascending(ids + batch)
  {
    forall i, j | 0 <= i < j < |ids + batch| ensures Less((ids + batch)[i], (ids + batch)[j]) {
      if i < |ids| <= j {
        var id := batch[j - |ids|];
        assert id in batch;
        if i < |ids| - 1 { LessTransitive(ids[i], Cursor(ids), id); }
      }
    }
  }

  /** Every id of `start` up to the cursor has been collected. */
  ghost predicate CollectedUpTo(ids: seq<string>, start: set<string>, last: string) {
    forall id <- start :: id == "" || id in ids || Less(last, id)
  }

  lemma BatchCollects(ids: seq<string>, start: set<string>, pairs: set<string>, batch: seq<string>)
    requires CollectedUpTo(ids, start, Cursor(ids)) && start <= pairs && IsBatch(pairs, Cursor(ids), batch)
    ensures |batch| < BATCH_SIZE ==> forall id <- start :: id == "" || id in ids + batch
    ensures CollectedUpTo(ids + batch, start, Cursor(ids + batch))
  {
  }

  /**
   * The loop ends, with strictly ascending ids (so no duplicates), all pairs that existed at
   * the first request, and nothing that did not exist at the last one.
   */
  method GetAllPairs(reply: (nat, string) -> seq<string>, ghost pairs: nat -> set<string>, ghost all: set<string>)
    returns (allPairs: seq<string>, requests: nat)
    requires Grows(pairs, all)
    requires forall k: nat, last: string :: IsBatch(pairs(k), last, reply(k, last))
    ensures requests >= 1
    ensures Ascending(allPairs)
    ensures forall id <- pairs(0) :: id == "" || id in allPairs
    ensures forall id <- allPairs :: id in pairs(requests - 1)
  {
    allPairs := [];
    requests := 0;
    var lastId := "";
    assert CollectedUpTo([], pairs(0), "") by {
      forall id | id in pairs(0) ensures id == "" || Less("", id) { }
    }
    while true
      invariant lastId == Cursor(allPairs)
      invariant Ascending(allPairs)
      invariant CollectedUpTo(allPairs, pairs(0), lastId)
      invariant forall id <- allPairs :: id in pairs(requests)
      decreases Ahead(all, lastId)
    {
      var batch := reply(requests, lastId);
      Later(pairs, all, 0, requests);
      BatchCollects(allPairs, pairs(0), pairs(requests), batch);
      AppendAscending(allPairs, batch);
      requests := requests + 1;
      if batch == [] {
        assert allPairs + batch == allPairs;
        break;
      }
      AheadShrinks(all, lastId, batch[|batch| - 1]);
      allPairs := allPairs + batch;
      lastId := batch[|batch| - 1];
      if |batch| < BATCH_SIZE {
        break;
      }
    }
  }

  /**
   * An ascending list is determined by its members: against a server that does not change, the
   * result is the sorted set.
   */
  lemma {:induction false} AscendingUnique(a: seq<string>, b: seq<string>)
    requires Ascending(a) && Ascending(b) && forall id :: id in a <==> id in b
    ensures a == b
  {
    assert a != [] ==> a[0] in a;
    assert b != [] ==> b[0] in b;
    if a != [] && b != [] {
      SameLast(a, b);
      var x, a', b' := a[|a| - 1], a[..|a| - 1], b[..|b| - 1];
      forall id ensures id in a' <==> id in a && Less(id, x) {
        FrontMember(a, id);
      }
      forall id ensures id in b' <==> id in b && Less(id, x) {
        FrontMember(b, id);
      }
      AscendingUnique(a', b');
      assert a == a' + [x] && b == b' + [x];
    }
  }

  lemma FrontMember(a: seq<string>, id: string)
    requires a != [] && Ascending(a)
    ensures id in a[..|a| - 1] <==> id in a && Less(id, a[|a| - 1])
  {
    var front, x := a[..|a| - 1], a[|a| - 1];
    assert a == front + [x];
    LessIrreflexive(x);
    if id in front {
      var i :| 0 <= i < |front| && front[i] == id;
      assert Less(a[i], a[|a| - 1]);
    }
  }

  lemma SameLast(a: seq<string>, b: seq<string>)
    requires a != [] && b != [] && Ascending(a) && Ascending(b) && forall id :: id in a <==> id in b
    ensures a[|a| - 1] == b[|b| - 1]
  {
    var x, y := a[|a| - 1], b[|b| - 1];
    assert x in b && y in a;
    if x != y {
      assert Less(x, y) && Less(y, x);
      LessTransitive(x, y, x);
      LessIrreflexive(x);
    }
  }
}
