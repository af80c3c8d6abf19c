/** The primitive ledger mutations shared by the matching engine and the
    market lifecycle: crediting a balance, recording a fill on an order,
    releasing an order's reservation, updating a weighted-average position and
    printing a trade on a market. Each states how it moves the ledger's
    total value. */
module Mutator {
  import opened Sums
  import opened Types

  /** Everything of value the ledger accounts for: cash balances, the notional
      reserved by resting orders, and the cost basis of positions. */
  function Total(L: Ledger): real
  {
    Sum(L.users, Funds) + Sum(L.orders, Reserved) + Sum(L.positions, CostBasis)
  }

  /** Adds amount to a user's balance. A missing user is left alone, as an
      UPDATE that matches no row. */
  function Credit(L: Ledger, u: UserId, amount: int): (L': Ledger)
    ensures L'.markets == L.markets && L'.orders == L.orders
    ensures L'.trades == L.trades && L'.positions == L.positions
    ensures |L'.users| == |L.users|
    ensures forall v :: 0 <= v < |L.users| ==>
              L'.users[v].balance == L.users[v].balance + (if v == u then amount else 0)
    ensures Sum(L'.users, Funds) == Sum(L.users, Funds) + (if u < |L.users| then amount as real else 0.0)
  {
    if u < |L.users| then
      var nu := L.users[u].(balance := L.users[u].balance + amount);
      SumUpdate(L.users, u, nu, Funds);
      L.(users := L.users[u := nu])
    else
      L
  }

  lemma CreditValid(L: Ledger, u: UserId, amount: int)
    requires Valid(L)
    requires amount >= 0
    ensures Valid(Credit(L, u, amount))
  {
  }

  /** An order after a fill of q: its fill count grows by q and its status is
      recomputed from the new count. */
  function WithFill(o: Order, q: int): Order
  {
    o.(filled := o.filled + q, status := StatusFor(o.filled + q, o.quantity))
  }

  /** Adds q to an order's filled quantity and recomputes its status from the
      new fill count. When the order was resting and q does not exceed its
      unfilled quantity, the reserved notional drops by exactly price * q. */
  function AddFill(L: Ledger, id: OrderId, q: int): (L': Ledger)
    requires id < |L.orders|
    ensures L'.users == L.users && L'.markets == L.markets
    ensures L'.trades == L.trades && L'.positions == L.positions
    ensures |L'.orders| == |L.orders|
    ensures forall k :: 0 <= k < |L.orders| && k != id ==> L'.orders[k] == L.orders[k]
    ensures var o, o' := L.orders[id], L'.orders[id];
            && o'.filled == o.filled + q
            && o'.status == StatusFor(o.filled + q, o.quantity)
            && o' == o.(filled := o'.filled, status := o'.status)
    ensures Resting(L.orders[id]) && 0 <= q <= Unfilled(L.orders[id]) ==>
              Sum(L'.orders, Reserved) == Sum(L.orders, Reserved) - (L.orders[id].price * q) as real
  {
    var o := L.orders[id];
    var o' := WithFill(o, q);
    SumUpdate(L.orders, id, o', Reserved);
    ReservedDrop(o, q);
    L.(orders := L.orders[id := o'])
  }

  /** A fill of q within a resting order's unfilled quantity releases price * q
      of what it reserved. */
  lemma ReservedDrop(o: Order, q: int)
    ensures Resting(o) && 0 <= q <= Unfilled(o) ==> Reserved(o) - Reserved(WithFill(o, q)) == (o.price * q) as real
  {
    if Resting(o) && 0 <= q <= Unfilled(o) {
      var o' := WithFill(o, q);
      assert Unfilled(o') == Unfilled(o) - q;
      if Resting(o') {
        assert o.price * Unfilled(o) - o.price * Unfilled(o') == o.price * q;
      } else {
        assert Unfilled(o') == 0;
      }
    }
  }

  lemma AddFillValid(L: Ledger, id: OrderId, q: int)
    requires Valid(L)
    requires id < |L.orders|
    requires 0 <= q <= Unfilled(L.orders[id])
    ensures Valid(AddFill(L, id, q))
  {
    var L' := AddFill(L, id, q);
    assert OrderWF(L'.orders[id], |L'.users|, |L'.markets|);
  }

  /** Cancels an order and credits its owner the notional of its unfilled
      quantity. For a resting order that is exactly what it had reserved, so
      the ledger's total value does not move. */
  function Release(L: Ledger, id: OrderId): (L': Ledger)
    requires id < |L.orders|
    ensures L'.markets == L.markets && L'.trades == L.trades && L'.positions == L.positions
    ensures |L'.users| == |L.users| && |L'.orders| == |L.orders|
    ensures L'.orders[id] == L.orders[id].(status := Cancelled)
    ensures forall k :: 0 <= k < |L.orders| && k != id ==> L'.orders[k] == L.orders[k]
    ensures forall v :: 0 <= v < |L.users| ==>
              L'.users[v].balance ==
              L.users[v].balance + (if v == L.orders[id].user then L.orders[id].price * Unfilled(L.orders[id]) else 0)
    ensures Resting(L.orders[id]) && L.orders[id].user < |L.users| ==> Total(L') == Total(L)
  {
    var o := L.orders[id];
    var o' := o.(status := Cancelled);
    SumUpdate(L.orders, id, o', Reserved);
    Credit(L.(orders := L.orders[id := o']), o.user, o.price * Unfilled(o))
  }

  lemma ReleaseValid(L: Ledger, id: OrderId)
    requires Valid(L)
    requires id < |L.orders|
    ensures Valid(Release(L, id))
  {
    var o := L.orders[id];
    var L1 := L.(orders := L.orders[id := o.(status := Cancelled)]);
    assert Valid(L1);
    CreditValid(L1, o.user, o.price * Unfilled(o));
  }

  /** The index of the position a user holds on one side of a market, if any. */
  function FindPosition(ps: seq<Position>, u: UserId, m: MarketId, side: Side): (r: Option<nat>)
    ensures r.Some? ==> r.value < |ps| && Holds(ps[r.value], u, m, side)
    ensures r.None? ==> forall k :: 0 <= k < |ps| ==> !Holds(ps[k], u, m, side)
    decreases |ps|
  {
    if |ps| == 0 then None
    else if Holds(ps[|ps| - 1], u, m, side) then Some(|ps| - 1)
    else FindPosition(ps[..|ps| - 1], u, m, side)
  }

  /** The average entry price after buying `shares` more at `price` on top of
      `oldShares` bought at `oldAvg`: the cost of the holding is the old cost
      plus price * shares, and the new average lies between the old average and
      the fill price. */
  function WeightedAverage(oldAvg: real, oldShares: int, price: int, shares: int): (r: real)
    ensures oldShares >= 0 && shares >= 0 ==>
              r * (oldShares + shares) as real == oldAvg * oldShares as real + (price * shares) as real
    ensures oldShares >= 0 && shares >= 0 && oldShares + shares > 0 ==> Between(r, oldAvg, price as real)
    ensures oldShares == 0 && shares > 0 ==> r == price as real
  {
    var total := oldShares + shares;
    if total > 0 then
      var s, q, p := oldShares as real, shares as real, price as real;
      var r := (oldAvg * s + p * q) / total as real;
      if oldShares >= 0 && shares >= 0 then MeanBetween(oldAvg, s, p, q, r); r else r
    else
      0.0
  }

  lemma MeanBetween(a: real, s: real, p: real, q: real, r: real)
    requires s >= 0.0 && q >= 0.0 && s + q > 0.0
    requires r == (a * s + p * q) / (s + q)
    ensures r * (s + q) == a * s + p * q
    ensures Between(r, a, p)
    ensures s == 0.0 ==> r == p
  {
    var t := s + q;
    assert r * t == a * s + p * q;
    assert a * t == a * s + a * q && p * t == p * s + p * q;
    if a <= p {
      ProductNonNegative(p - a, q);
      ProductNonNegative(p - a, s);
      assert a * t <= r * t <= p * t;
      ScaleOrder(a, r, t);
      ScaleOrder(r, p, t);
    } else {
      ProductNonNegative(a - p, q);
      ProductNonNegative(a - p, s);
      assert p * t <= r * t <= a * t;
      ScaleOrder(p, r, t);
      ScaleOrder(r, a, t);
    }
    if s == 0.0 {
      assert r * t == p * t;
      ScaleOrder(r, p, t);
      ScaleOrder(p, r, t);
    }
  }

  /** Dividing both sides of an inequality by a positive factor. */
  lemma ScaleOrder(x: real, y: real, t: real)
    requires t > 0.0 && x * t <= y * t
    ensures x <= y
  {
    assert y * t - x * t == (y - x) * t;
  }

  lemma ProductNonNegative(x: real, y: real)
    requires x >= 0.0 && y >= 0.0
    ensures x * y >= 0.0
  {
  }

  /** Adds a fill of `shares` at `price` to the user's position on one side of
      a market, creating the position on its first fill. */
  function UpdatePosition(L: Ledger, u: UserId, m: MarketId, side: Side, shares: int, price: int): (L': Ledger)
    ensures L'.users == L.users && L'.markets == L.markets
    ensures L'.orders == L.orders && L'.trades == L.trades
  {
    match FindPosition(L.positions, u, m, side)
    case Some(i) =>
      var p := L.positions[i];
      var avg := WeightedAverage(p.avgPrice, p.shares, price, shares);
      L.(positions := L.positions[i := p.(shares := p.shares + shares, avgPrice := avg)])
    case None =>
      L.(positions := L.positions + [Position(u, m, side, shares, price as real, 0)])
  }

  /** The effect of a fill on positions: the holder's shares on that side grow
      by the fill, the average moves to the weighted mean (between the old
      average and the fill price), realized P&L is untouched, every other
      position stays as it was, a first fill creates the one position for the
      key, and the total cost basis grows by exactly price * shares. */
  lemma UpdatePositionEffect(L: Ledger, u: UserId, m: MarketId, side: Side, shares: int, price: int)
    requires Valid(L)
    requires u < |L.users| && m < |L.markets|
    requires ValidPrice(price) && shares > 0
    ensures var L' := UpdatePosition(L, u, m, side, shares, price);
            && Valid(L')
            && Sum(L'.positions, CostBasis) == Sum(L.positions, CostBasis) + (price * shares) as real
            && (forall k :: 0 <= k < |L.positions| && !Holds(L.positions[k], u, m, side) ==>
                  L'.positions[k] == L.positions[k])
            && (forall k :: 0 <= k < |L.positions| && Holds(L.positions[k], u, m, side) ==>
                  && |L'.positions| == |L.positions|
                  && L'.positions[k].shares == L.positions[k].shares + shares
                  && L'.positions[k].realizedPnl == L.positions[k].realizedPnl
                  && Holds(L'.positions[k], u, m, side)
                  && (L'.positions[k].shares > 0 ==>
                        Between(L'.positions[k].avgPrice, L.positions[k].avgPrice, price as real)))
            && ((forall k :: 0 <= k < |L.positions| ==> !Holds(L.positions[k], u, m, side)) ==>
                  L'.positions == L.positions + [Position(u, m, side, shares, price as real, 0)])
  {
    UpdatePositionValid(L, u, m, side, shares, price);
    match FindPosition(L.positions, u, m, side)
    case Some(i) =>
      assert PositionWF(L.positions[i], |L.users|, |L.markets|);
      forall k | 0 <= k < |L.positions| && Holds(L.positions[k], u, m, side)
        ensures k == i
      {
        if k != i {
          assert false;
        }
      }
    case None =>
  }

  /** A fill keeps every invariant of the ledger, at most one position per
      key included, and grows the total cost basis by exactly price * shares. */
  lemma UpdatePositionValid(L: Ledger, u: UserId, m: MarketId, side: Side, shares: int, price: int)
    requires Valid(L)
    requires u < |L.users| && m < |L.markets|
    requires ValidPrice(price) && shares > 0
    ensures var L' := UpdatePosition(L, u, m, side, shares, price);
            && Valid(L')
            && Sum(L'.positions, CostBasis) == Sum(L.positions, CostBasis) + (price * shares) as real
  {
    var L' := UpdatePosition(L, u, m, side, shares, price);
    match FindPosition(L.positions, u, m, side)
    case Some(i) =>
      var p := L.positions[i];
      var p' := L'.positions[i];
      assert PositionWF(p, |L.users|, |L.markets|);
      CostAfterFill(p, shares, price);
      IntegralAdd(CostBasis(p), price * shares);
      assert PositionWF(p', |L'.users|, |L'.markets|);
      SumUpdate(L.positions, i, p', CostBasis);
      assert PositionsUnique(L'.positions) by {
        forall a, b | 0 <= a < b < |L'.positions|
          ensures !Holds(L'.positions[b], L'.positions[a].user, L'.positions[a].market, L'.positions[a].side)
        {
          assert !Holds(L.positions[b], L.positions[a].user, L.positions[a].market, L.positions[a].side);
        }
      }
    case None =>
      var p' := Position(u, m, side, shares, price as real, 0);
      assert CostBasis(p') == (price * shares) as real;
      assert PositionWF(p', |L'.users|, |L'.markets|);
      SumAppend(L.positions, p', CostBasis);
      assert PositionsUnique(L'.positions) by {
        forall a, b | 0 <= a < b < |L'.positions|
          ensures !Holds(L'.positions[b], L'.positions[a].user, L'.positions[a].market, L'.positions[a].side)
        {
          if b < |L.positions| {
            assert !Holds(L.positions[b], L.positions[a].user, L.positions[a].market, L.positions[a].side);
          } else {
            assert !Holds(L.positions[a], u, m, side);
          }
        }
      }
  }

  /** A fill of `shares` at `price` adds exactly price * shares to a
      position's cost basis. */
  lemma CostAfterFill(p: Position, shares: int, price: int)
    requires p.shares >= 0 && shares >= 0
    ensures var p' := p.(shares := p.shares + shares, avgPrice := WeightedAverage(p.avgPrice, p.shares, price, shares));
            CostBasis(p') == CostBasis(p) + (price * shares) as real
  {
    var avg := WeightedAverage(p.avgPrice, p.shares, price, shares);
    assert avg * (p.shares + shares) as real == p.avgPrice * p.shares as real + (price * shares) as real;
  }

  /** The cost basis of a position when it is the holding of (u, m, side). */
  function HeldCost(u: UserId, m: MarketId, side: Side): Position -> real
  {
    (p: Position) => if Holds(p, u, m, side) then CostBasis(p) else 0.0
  }

  /** The shares of a position when it is the holding of (u, m, side). */
  function HeldShares(u: UserId, m: MarketId, side: Side): Position -> real
  {
    (p: Position) => if Holds(p, u, m, side) then p.shares as real else 0.0
  }

  /** A fill on one key moves that key's holding alone: its shares grow by the
      fill and its cost by price * shares, while every other (user, market,
      side) holds what it held. */
  lemma UpdatePositionHeld(L: Ledger, u: UserId, m: MarketId, side: Side, shares: int, price: int,
                           u': UserId, m': MarketId, side': Side)
    requires Valid(L) && shares >= 0
    ensures var L' := UpdatePosition(L, u, m, side, shares, price);
            var key := u' == u && m' == m && side' == side;
            && Sum(L'.positions, HeldShares(u', m', side')) ==
               Sum(L.positions, HeldShares(u', m', side')) + (if key then shares as real else 0.0)
            && Sum(L'.positions, HeldCost(u', m', side')) ==
               Sum(L.positions, HeldCost(u', m', side')) + (if key then (price * shares) as real else 0.0)
  {
    var L' := UpdatePosition(L, u, m, side, shares, price);
    match FindPosition(L.positions, u, m, side)
    case Some(i) =>
      var p := L.positions[i];
      var p' := L'.positions[i];
      assert p' == p.(shares := p.shares + shares, avgPrice := WeightedAverage(p.avgPrice, p.shares, price, shares));
      assert PositionWF(p, |L.users|, |L.markets|);
      CostAfterFill(p, shares, price);
      SumUpdate(L.positions, i, p', HeldShares(u', m', side'));
      SumUpdate(L.positions, i, p', HeldCost(u', m', side'));
    case None =>
      var p' := Position(u, m, side, shares, price as real, 0);
      SumAppend(L.positions, p', HeldShares(u', m', side'));
      SumAppend(L.positions, p', HeldCost(u', m', side'));
  }

  /** Prints a trade on a market: the last-trade prices become the execution
      price and its complement, and the volume grows by the trade's notional. */
  function RecordPrint(L: Ledger, m: MarketId, price: int, q: int): (L': Ledger)
    ensures L'.users == L.users && L'.orders == L.orders
    ensures L'.trades == L.trades && L'.positions == L.positions
    ensures |L'.markets| == |L.markets|
    ensures forall k :: 0 <= k < |L.markets| && k != m ==> L'.markets[k] == L.markets[k]
    ensures m < |L.markets| ==>
              && L'.markets[m].yesPrice + L'.markets[m].noPrice == Payoff
              && L'.markets[m].yesPrice == price
              && L'.markets[m].volume == L.markets[m].volume + price * q
              && L'.markets[m].status == L.markets[m].status
              && L'.markets[m].info == L.markets[m].info
  {
    if m < |L.markets| then
      var mk := L.markets[m];
      L.(markets := L.markets[m := mk.(volume := mk.volume + price * q, yesPrice := price, noPrice := Payoff - price)])
    else
      L
  }

  lemma RecordPrintValid(L: Ledger, m: MarketId, price: int, q: int)
    requires Valid(L)
    requires m < |L.markets| && L.markets[m].status == MarketOpen
    requires ValidPrice(price) && q >= 0
    ensures Valid(RecordPrint(L, m, price, q))
  {
    var L' := RecordPrint(L, m, price, q);
    assert MarketWF(L'.markets[m]);
  }
}
