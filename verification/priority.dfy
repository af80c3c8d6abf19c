/** Price-time priority: the order in which resting orders are offered to an
    incoming order and listed in the order book. Higher quoted price comes
    first; at equal price the earlier order (the smaller id) comes first. */
module Priority {
  import opened Types

  /** Order a is served before order b. */
  predicate Before(os: seq<Order>, a: OrderId, b: OrderId)
  {
    && a < |os|
    && b < |os|
    && (os[a].price > os[b].price || (os[a].price == os[b].price && a < b))
  }

  /** s lists orders strictly in price-time priority (so without repeats). */
  predicate Sorted(os: seq<Order>, s: seq<OrderId>)
  {
    forall i, j :: 0 <= i < j < |s| ==> Before(os, s[i], s[j])
  }

  /** An order on the book of one side of a market, quoting at least `floor`. */
  predicate Queued(o: Order, m: MarketId, side: Side, floor: int)
  {
    && o.market == m
    && o.side == side
    && Resting(o)
    && o.price >= floor
  }

  /** Places x into a priority-sorted list. */
  function Insert(os: seq<Order>, x: OrderId, s: seq<OrderId>): (r: seq<OrderId>)
    requires x < |os| && x !in s
    requires forall y :: y in s ==> y < |os|
    requires Sorted(os, s)
    ensures Sorted(os, r)
    ensures forall y :: y in r <==> y == x || y in s
    ensures |r| == |s| + 1
    decreases |s|
  {
    if |s| == 0 then [x]
    else if Before(os, x, s[0]) then
      PrependSorted(os, x, s);
      [x] + s
    else
      var r := Insert(os, x, s[1..]);
      assert s[0] in s;
      PrependSorted(os, s[0], r);
      [s[0]] + r
  }

  lemma BeforeTransitive(os: seq<Order>, a: OrderId, b: OrderId, c: OrderId)
    requires Before(os, a, b) && Before(os, b, c)
    ensures Before(os, a, c)
  {
  }

  /** y may head a sorted list when it precedes the list's first element
      (or everything, as the list is sorted). */
  lemma PrependSorted(os: seq<Order>, y: OrderId, s: seq<OrderId>)
    requires Sorted(os, s)
    requires y < |os| && forall z :: z in s ==> z < |os|
    requires y !in s
    requires |s| > 0 ==> Before(os, y, s[0]) || forall z :: z in s ==> Before(os, y, z)
    ensures Sorted(os, [y] + s)
  {
    var r := [y] + s;
    forall i, j | 0 <= i < j < |r|
      ensures Before(os, r[i], r[j])
    {
      if i == 0 {
        assert r[j] == s[j - 1];
        if j - 1 > 0 && Before(os, y, s[0]) {
          BeforeTransitive(os, y, s[0], s[j - 1]);
        }
      } else {
        assert r[i] == s[i - 1] && r[j] == s[j - 1];
      }
    }
  }

  /** The orders among the first n of the table that are queued on (m, side)
      at or above `floor`, in price-time priority. */
  function Queue(os: seq<Order>, m: MarketId, side: Side, floor: int, n: nat): (q: seq<OrderId>)
    requires n <= |os|
    ensures Sorted(os, q)
    ensures forall id :: id in q ==> id < n
    ensures forall id: nat :: id in q <==> id < n && Queued(os[id], m, side, floor)
    decreases n
  {
    if n == 0 then []
    else
      var rest := Queue(os, m, side, floor, n - 1);
      if Queued(os[n - 1], m, side, floor) then Insert(os, n - 1, rest) else rest
  }

  /** The head of a sorted list precedes every other element of it. */
  lemma HeadFirst(os: seq<Order>, s: seq<OrderId>)
    requires Sorted(os, s)
    ensures forall x :: x in s ==> x == s[0] || Before(os, s[0], x)
  {
    forall x | x in s
      ensures x == s[0] || Before(os, s[0], x)
    {
      var k :| 0 <= k < |s| && s[k] == x;
      assert k == 0 || Before(os, s[0], s[k]);
    }
  }

  lemma MembersInRange(s: seq<OrderId>, n: nat)
    requires forall id :: id in s ==> id < n
    ensures forall k :: 0 <= k < |s| ==> s[k] < n
  {
    forall k | 0 <= k < |s|
      ensures s[k] < n
    {
      assert s[k] in s;
    }
  }

  /** In a sorted list the order of positions agrees with priority. */
  lemma SortedPositions(os: seq<Order>, s: seq<OrderId>, i: nat, j: nat)
    requires Sorted(os, s)
    requires i < |s| && j < |s| && Before(os, s[i], s[j])
    ensures i < j
  {
  }

  lemma HeadIn(s: seq<OrderId>)
    ensures |s| > 0 ==> s[0] in s
  {
  }

  /** Price-time priority is a strict total order on order ids, so a set of
      orders has exactly one sorted arrangement: two sorted lists with the same
      elements are equal. */
  lemma {:induction false} SortedUnique(os: seq<Order>, a: seq<OrderId>, b: seq<OrderId>)
    requires Sorted(os, a) && Sorted(os, b)
    requires forall x :: x in a <==> x in b
    ensures a == b
    decreases |a|
  {
    HeadIn(a);
    HeadIn(b);
    if |a| > 0 && |b| > 0 {
      HeadFirst(os, a);
      HeadFirst(os, b);
      assert a[0] == b[0];
      forall x
        ensures x in a[1..] <==> x in b[1..]
      {
        if x in a[1..] {
          var k :| 1 <= k < |a| && a[k] == x;
          assert Before(os, a[0], a[k]);
          assert x in b;
          var k' :| 0 <= k' < |b| && b[k'] == x;
          assert k' != 0;
          assert b[1..][k' - 1] == x;
        }
        if x in b[1..] {
          var k :| 1 <= k < |b| && b[k] == x;
          assert Before(os, b[0], b[k]);
          assert x in a;
          var k' :| 0 <= k' < |a| && a[k'] == x;
          assert k' != 0;
          assert a[1..][k' - 1] == x;
        }
      }
      SortedUnique(os, a[1..], b[1..]);
    }
  }

  /** Any listing of exactly the queued orders in price-time priority is the
      queue itself: the queue is the result of filtering the table and ordering
      it by price descending, then creation ascending. */
  lemma QueueIsPriceTimeOrder(os: seq<Order>, m: MarketId, side: Side, floor: int, s: seq<OrderId>)
    requires Sorted(os, s)
    requires forall id: nat :: id in s <==> id < |os| && Queued(os[id], m, side, floor)
    ensures s == Queue(os, m, side, floor, |os|)
  {
    SortedUnique(os, s, Queue(os, m, side, floor, |os|));
  }
}
