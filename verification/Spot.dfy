/**
 The cursor pagination of app/api/v1/spot.py.  `listed` says for which ids both on-chain
 lookups succeed; a page is the ids it returns, and a walk follows `next_cursor` to its end.
 */
module Spot {
  import opened Options

  const MAX_SCAN := 50
  const MAX_MISSES := 5

  datatype Page = Page(ids: seq<int>, nextCursor: Option<int>, hasMore: bool)

  // ---------- One page ----------

  /** The scan loop: what it has found when it stops, and its count of consecutive misses. */
  function Scan(listed: int -> bool, mid: int, end: int, limit: int, found: seq<int>, misses: int): (r: (seq<int>, int))
    ensures found <= r.0
    ensures forall i :: |found| <= i < |r.0| ==> mid <= r.0[i] < end && listed(r.0[i])
    decreases end - mid
  {
    if mid >= end || |found| >= limit then (found, misses)
    else if listed(mid) then Scan(listed, mid + 1, end, limit, found + [mid], 0)
    else if misses + 1 >= MAX_MISSES then (found, misses + 1)
    else Scan(listed, mid + 1, end, limit, found, misses + 1)
  }

  function StartId(cursor: Option<int>): int {
    if cursor.Some? then cursor.value + 1 else 1
  }

  function PageOf(listed: int -> bool, cursor: Option<int>, limit: int): Page {
    var r := Scan(listed, StartId(cursor), StartId(cursor) + MAX_SCAN, limit, [], 0);
    PageFrom(r.0, r.1, limit)
  }

  function PageFrom(ids: seq<int>, misses: int, limit: int): Page {
    var hasMore := |ids| >= limit && misses < MAX_MISSES;
    Page(ids, if hasMore && ids != [] then Some(ids[|ids| - 1]) else None, hasMore)
  }

  method ListSpotMarkets(listed: int -> bool, cursor: Option<int>, limit: int) returns (page: Page)
    requires cursor.Some? ==> cursor.value >= 0
    requires 1 <= limit <= 100
    ensures page == PageOf(listed, cursor, limit)
  {
    var startId := if cursor.Some? then cursor.value + 1 else 1;
    var markets := [];
    var consecutiveMisses := 0;
    var lastFoundId: Option<int> := None;
    var end := startId + MAX_SCAN;
    ghost var result := Scan(listed, startId, end, limit, [], 0);
    var mid := startId;
    while mid < end
      invariant startId <= mid <= end
      invariant Scan(listed, mid, end, limit, markets, consecutiveMisses) == result
      invariant lastFoundId == if markets == [] then None else Some(markets[|markets| - 1])
      decreases end - mid
    {
      if |markets| >= limit {
        break;
      }
      if listed(mid) {
        markets := markets + [mid];
        lastFoundId := Some(mid);
        consecutiveMisses := 0;
      } else {
        consecutiveMisses := consecutiveMisses + 1;
        if consecutiveMisses >= 5 {
          break;
        }
      }
      mid := mid + 1;
    }
    assert result == (markets, consecutiveMisses);
    var hasMore := |markets| >= limit && consecutiveMisses < 5;
    page := Page(markets, if hasMore then lastFoundId else None, hasMore);
  }

  // ---------- The registry as an ordered list ----------

  predicate Ordered(es: seq<int>) {
    && (forall i :: 0 <= i < |es| ==> es[i] >= 1)
    && (forall i, j :: 0 <= i < j < |es| ==> es[i] < es[j])
  }

  ghost predicate Lists(listed: int -> bool, es: seq<int>) {
    Ordered(es) && forall m: int :: m >= 1 ==> (listed(m) <==> m in es)
  }

  function Prev(es: seq<int>, i: nat): int
    requires i <= |es|
  {
    if i == 0 then 0 else es[i - 1]
  }

  function Larger(x: int, y: int): int { if x >= y then x else y }

  /**
   * A page that started after `c` can still see id number `i`: at most 4 ids missing right before
   * it, counted from `c` on, and within 50 of `c`.
   */
  predicate Visible(es: seq<int>, c: int, i: nat)
    requires i < |es|
  {
    es[i] - Larger(c, Prev(es, i)) <= 5 && es[i] - c <= 50
  }

  /** `j` is where a page stops that starts after `c` with id number `i`. */
  predicate PageEnds(es: seq<int>, c: int, i: nat, limit: nat, j: nat)
    requires i <= |es|
  {
    && i <= j <= |es| && j - i <= limit
    && (forall k :: i <= k < j ==> Visible(es, c, k))
    && (j - i < limit && j < |es| ==> !Visible(es, c, j))
  }

  /** Id number `i` is the first one after `c`. */
  predicate FirstAfter(es: seq<int>, c: int, i: nat) {
    i <= |es| && Prev(es, i) <= c && (i < |es| ==> c < es[i])
  }

  /** From id number `i` on the scan takes exactly the visible ids, up to the limit. */
  lemma {:induction false} ScanTakes(listed: int -> bool, es: seq<int>, c: int, i: nat, mid: int, limit: nat,
                                     found: seq<int>, misses: int) returns (j: nat)
    requires Lists(listed, es) && c >= 0 && i <= |es| && |found| <= limit
    requires Larger(c, Prev(es, i)) < mid <= c + MAX_SCAN + 1 && (i < |es| ==> mid <= es[i])
    requires misses == mid - Larger(c, Prev(es, i)) - 1 < MAX_MISSES
    ensures i <= j <= |es| && j - i <= limit - |found|
    ensures Scan(listed, mid, c + MAX_SCAN + 1, limit, found, misses).0 == found + es[i..j]
    ensures forall k :: i <= k < j ==> Visible(es, c, k)
    ensures j - i < limit - |found| && j < |es| ==> !Visible(es, c, j)
    ensures j - i == limit - |found| ==> Scan(listed, mid, c + MAX_SCAN + 1, limit, found, misses).1 < MAX_MISSES
    decreases c + MAX_SCAN + 1 - mid
  {
    hide Lists, Ordered;
    j := i;
    assert found + es[i..i] == found;
    if mid < c + MAX_SCAN + 1 && |found| < limit {
      if i < |es| && mid == es[i] {
        NextListed(listed, es, i);
        j := ScanTakes(listed, es, c, i + 1, mid + 1, limit, found + [mid], 0);
        assert found + [mid] + es[i + 1..j] == found + es[i..j];
      } else {
        Unlisted(listed, es, i, mid);
        if misses + 1 < MAX_MISSES {
          j := ScanTakes(listed, es, c, i, mid + 1, limit, found, misses + 1);
        }
      }
    }
  }

  lemma NextListed(listed: int -> bool, es: seq<int>, i: nat)
    requires Lists(listed, es) && i < |es|
    ensures listed(es[i]) && (i + 1 < |es| ==> es[i] < es[i + 1])
  {
  }

  lemma Unlisted(listed: int -> bool, es: seq<int>, i: nat, mid: int)
    requires Lists(listed, es) && i <= |es| && Prev(es, i) < mid && (i < |es| ==> mid < es[i])
    ensures !listed(mid)
  {
  }

  /**
   * For any cursor at all, a page returns a contiguous stretch of the registry, from the first id
   * after the cursor on, and offers a next page exactly if it is full.
   */
  lemma PageIsStretch(listed: int -> bool, es: seq<int>, cursor: Option<int>, i: nat, limit: nat) returns (j: nat)
    requires Lists(listed, es) && limit >= 1 && (cursor.Some? ==> cursor.value >= 0)
    requires FirstAfter(es, if cursor.Some? then cursor.value else 0, i)
    ensures PageEnds(es, if cursor.Some? then cursor.value else 0, i, limit, j)
    ensures PageOf(listed, cursor, limit)
         == Page(es[i..j], if j - i == limit then Some(es[j - 1]) else None, j - i == limit)
  {
    hide Scan, Visible;
    var c := if cursor.Some? then cursor.value else 0;
    j := ScanTakes(listed, es, c, i, c + 1, limit, [], 0);
    var r := Scan(listed, c + 1, c + MAX_SCAN + 1, limit, [], 0);
    assert r.0 == es[i..j] by { assert [] + es[i..j] == es[i..j]; }
    assert PageOf(listed, cursor, limit) == PageFrom(r.0, r.1, limit);
    FullPage(es, i, j, r.1, limit);
  }

  lemma FullPage(es: seq<int>, i: nat, j: nat, misses: int, limit: nat)
    requires i <= j <= |es| && 1 <= limit && j - i <= limit && (j - i == limit ==> misses < MAX_MISSES)
    ensures PageFrom(es[i..j], misses, limit)
            == Page(es[i..j], if j - i == limit then Some(es[j - 1]) else None, j - i == limit)
  {
  }

  // ---------- The whole walk ----------

  /** All ids a client sees that starts at `cursor` and follows `next_cursor`; ids above `top` do not exist. */
  ghost function Walk(listed: int -> bool, cursor: Option<int>, limit: nat, top: int): seq<int>
    requires limit >= 1 && forall m: int :: m > top ==> !listed(m)
    decreases top - StartId(cursor)
  {
    var page := PageOf(listed, cursor, limit);
    if page.nextCursor.None? then page.ids
    else
      assert page.ids[|page.ids| - 1] >= StartId(cursor);
      assert listed(page.ids[|page.ids| - 1]);
      page.ids + Walk(listed, page.nextCursor, limit, top)
  }

  /** Id number `i` can be reached: at most 4 ids missing right before it, and within 50 ids of its page's cursor. */
  predicate Reachable(es: seq<int>, limit: nat, i: nat)
    requires i < |es| && limit >= 1
  {
    es[i] - Prev(es, i) <= 5 && es[i] - Prev(es, i - i % limit) <= 50
  }

  lemma PageBase(b: nat, limit: nat, i: nat)
    requires limit >= 1 && b % limit == 0 && b <= i < b + limit
    ensures i - i % limit == b
    ensures (b + limit) % limit == 0
  {
    var k := b / limit;
    assert b == k * limit;
    assert i == k * limit + (i - b);
    ModUnique(i, k, i - b, limit);
    assert b + limit == (k + 1) * limit + 0;
    ModUnique(b + limit, k + 1, 0, limit);
  }

  lemma SamePage(es: seq<int>, b: nat, limit: nat, i: nat)
    requires limit >= 1 && b % limit == 0 && b <= i < b + limit && i < |es| && Ordered(es)
    ensures Reachable(es, limit, i) <==> Visible(es, Prev(es, b), i)
  {
    PageBase(b, limit, i);
  }

  lemma ModUnique(x: nat, q: nat, r: nat, d: nat)
    requires d >= 1 && r < d && x == q * d + r
    ensures x % d == r
  {
    var q', r' := x / d, x % d;
    assert x == q' * d + r';
    if q' < q {
      MulAtLeast(q - q', d);
    } else if q' > q {
      MulAtLeast(q' - q, d);
    }
  }

  lemma MulAtLeast(k: int, d: nat)
    requires k >= 1
    ensures k * d >= d
  {
  }

  /** From a page boundary on, the walk returns the ids up to the first unreachable one. */
  lemma {:induction false} WalkFrom(listed: int -> bool, es: seq<int>, cursor: Option<int>, b: nat, limit: nat,
                                    top: int) returns (n: nat)
    requires Lists(listed, es) && limit >= 1 && b <= |es| && b % limit == 0
    requires cursor == if b == 0 then None else Some(es[b - 1])
    requires forall m: int :: m > top ==> !listed(m)
    ensures b <= n <= |es|
    ensures Walk(listed, cursor, limit, top) == es[b..n]
    ensures forall i :: b <= i < n ==> Reachable(es, limit, i)
    ensures n < |es| ==> !Reachable(es, limit, n)
    decreases |es| - b
  {
    hide Scan, PageOf, Reachable, Visible;
    var j := PageIsStretch(listed, es, cursor, b, limit);
    forall i | b <= i < |es| && i < b + limit ensures Reachable(es, limit, i) <==> Visible(es, Prev(es, b), i) {
      SamePage(es, b, limit, i);
    }
    if j - b == limit {
      PageBase(b, limit, b);
      n := WalkFrom(listed, es, Some(es[j - 1]), j, limit, top);
      assert es[b..j] + es[j..n] == es[b..n];
    } else {
      n := j;
    }
  }

  /**
   * The walk returns the existing ids in increasing order, none skipped, up to the first id
   * that cannot be reached, and stops right there.
   */
  lemma WalkIsPrefix(listed: int -> bool, es: seq<int>, limit: nat, top: int) returns (n: nat)
    requires Lists(listed, es) && limit >= 1 && forall m: int :: m > top ==> !listed(m)
    ensures n <= |es| && Walk(listed, None, limit, top) == es[..n]
    ensures forall i :: 0 <= i < n ==> Reachable(es, limit, i)
    ensures n < |es| ==> !Reachable(es, limit, n)
  {
    n := WalkFrom(listed, es, None, 0, limit, top);
    assert es[0..n] == es[..n];
  }

  /** The walk is complete exactly if every id is reachable. */
  lemma CompleteExactly(listed: int -> bool, es: seq<int>, limit: nat, top: int)
    requires Lists(listed, es) && limit >= 1 && forall m: int :: m > top ==> !listed(m)
    ensures Walk(listed, None, limit, top) == es <==> forall i :: 0 <= i < |es| ==> Reachable(es, limit, i)
  {
    var n := WalkIsPrefix(listed, es, limit, top);
    if n == |es| { assert es[..n] == es; }
  }

  lemma {:induction false} SpanBound(es: seq<int>, g: nat, b: nat, i: nat)
    requires b <= i < |es| && forall k :: 0 <= k < |es| ==> es[k] - Prev(es, k) <= g + 1
    ensures es[i] - Prev(es, b) <= (i - b + 1) * (g + 1)
    decreases i
  {
    if i > b {
      SpanBound(es, g, b, i - 1);
      assert (i - b + 1) * (g + 1) == (i - b) * (g + 1) + (g + 1);
    } else {
      assert (i - b + 1) * (g + 1) == g + 1;
    }
  }

  lemma ProductLe(a: nat, b: nat, k: nat)
    requires a <= b
    ensures a * k <= b * k
  {
  }

  lemma SmallGapsReach(es: seq<int>, limit: nat, g: nat, i: nat)
    requires limit >= 1 && i < |es| && g < 5 && limit * (g + 1) <= 50
    requires forall k :: 0 <= k < |es| ==> es[k] - Prev(es, k) <= g + 1
    ensures Reachable(es, limit, i)
  {
    var b := i - i % limit;
    SpanBound(es, g, b, i);
    ProductLe(i - b + 1, limit, g + 1);
  }

  /**
   * Bounded gaps and a small enough page size make it complete: at most g < 5 missing in a row,
   * limit * (g + 1) <= 50.
   */
  lemma SmallGapsComplete(listed: int -> bool, es: seq<int>, limit: nat, top: int, g: nat)
    requires Lists(listed, es) && limit >= 1 && forall m: int :: m > top ==> !listed(m)
    requires g < 5 && limit * (g + 1) <= 50
    requires forall k :: 0 <= k < |es| ==> es[k] - Prev(es, k) <= g + 1
    ensures Walk(listed, None, limit, top) == es
  {
    forall i | 0 <= i < |es| ensures Reachable(es, limit, i) {
      SmallGapsReach(es, limit, g, i);
    }
    CompleteExactly(listed, es, limit, top);
  }
}
