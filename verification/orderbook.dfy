/** The order book's public operations: placing an order (validation,
    reservation of its full notional, matching, and the sweep of a market
    order's unfilled rest), cancelling an order, and listing a market's book. */
module OrderBook {
  import opened Sums
  import opened Types
  import opened Mutator
  import opened Priority
  import opened Matching

  /** A successful placement: the ledger afterwards, the new order's id and
      the trades it made. */
  datatype Placement = Placement(ledger: Ledger, id: OrderId, trades: seq<Trade>)

  /** Debits the full notional of an order from its user and inserts the
      order, open and unfilled, as the newest one. The debit is exactly what
      the new order reserves, so the ledger's total value does not move. */
  function Admit(L: Ledger, u: UserId, m: MarketId, side: Side, kind: OrderType, price: int, q: int): (L': Ledger)
    requires u < |L.users|
    ensures L'.markets == L.markets && L'.trades == L.trades && L'.positions == L.positions
    ensures L'.orders == L.orders + [Order(u, m, side, kind, price, q, 0, Open)]
    ensures |L'.users| == |L.users|
    ensures forall v :: 0 <= v < |L.users| ==>
              L'.users[v].balance == L.users[v].balance - (if v == u then price * q else 0)
    ensures Total(L') == Total(L)
  {
    var o := Order(u, m, side, kind, price, q, 0, Open);
    var L1 := Credit(L, u, -(price * q));
    SumAppend(L1.orders, o, Reserved);
    L1.(orders := L1.orders + [o])
  }

  lemma AdmitValid(L: Ledger, u: UserId, m: MarketId, side: Side, kind: OrderType, price: int, q: int)
    requires Valid(L)
    requires u < |L.users| && m < |L.markets|
    requires ValidPrice(price) && q > 0 && L.users[u].balance >= price * q
    ensures Valid(Admit(L, u, m, side, kind, price, q))
  {
    var L' := Admit(L, u, m, side, kind, price, q);
    assert OrderWF(L'.orders[|L.orders|], |L'.users|, |L'.markets|);
  }

  /** A market order never rests: whatever it left unfilled is released,
      refunding price * unfilled to its owner and cancelling the order. A
      limit order, or a market order filled completely, is left as it is. */
  function Sweep(L: Ledger, id: OrderId): (L': Ledger)
    requires id < |L.orders|
    ensures L'.markets == L.markets && L'.trades == L.trades && L'.positions == L.positions
    ensures |L'.users| == |L.users| && |L'.orders| == |L.orders|
    ensures forall k :: 0 <= k < |L.orders| && k != id ==> L'.orders[k] == L.orders[k]
    ensures L'.orders[id] ==
              if L.orders[id].kind == MarketOrder && L.orders[id].filled < L.orders[id].quantity
              then L.orders[id].(status := Cancelled) else L.orders[id]
    ensures forall v :: 0 <= v < |L.users| ==>
              L'.users[v].balance == L.users[v].balance +
                (if v == L.orders[id].user && L.orders[id].kind == MarketOrder && L.orders[id].filled < L.orders[id].quantity then L.orders[id].price * Unfilled(L.orders[id]) else 0)
  {
    var o := L.orders[id];
    if o.kind == MarketOrder && o.filled < o.quantity then Release(L, id) else L
  }

  /** Sweeping keeps the ledger valid and its total value unchanged, and a
      market order ends filled or cancelled. */
  lemma SweepValid(L: Ledger, id: OrderId)
    requires Valid(L) && id < |L.orders|
    requires L.orders[id].status != Cancelled
    ensures var L' := Sweep(L, id);
            && Valid(L')
            && Total(L') == Total(L)
            && (L'.orders[id].kind == MarketOrder ==> L'.orders[id].status == Filled || L'.orders[id].status == Cancelled)
  {
    var o := L.orders[id];
    assert OrderWF(o, |L.users|, |L.markets|);
    UnfilledOrderRests(o, |L.users|, |L.markets|);
    ReleaseValid(L, id);
  }

  /** The checks of a placement, in the order the engine makes them: the
      price, the quantity, the market, the user, the balance. */
  function Check(L: Ledger, u: UserId, m: MarketId, price: int, quantity: real): (e: Option<Error>)
    ensures e == Some(InvalidPrice) <==> !ValidPrice(price)
    ensures e == Some(InvalidQuantity) <==> ValidPrice(price) && !PositiveInteger(quantity)
    ensures e == Some(MarketNotOpenForTrading) <==>
              ValidPrice(price) && PositiveInteger(quantity) && !TradingOpen(L, m)
    ensures e == Some(UserNotFound) <==>
              ValidPrice(price) && PositiveInteger(quantity) && TradingOpen(L, m) && u >= |L.users|
    ensures e == Some(InsufficientBalance) <==>
              ValidPrice(price) && PositiveInteger(quantity) && TradingOpen(L, m) && u < |L.users| &&
              L.users[u].balance < price * quantity.Floor
    ensures e.None? <==>
              ValidPrice(price) && PositiveInteger(quantity) && TradingOpen(L, m) && u < |L.users| &&
              L.users[u].balance >= price * quantity.Floor
  {
    if !ValidPrice(price) then Some(InvalidPrice)
    else if !PositiveInteger(quantity) then Some(InvalidQuantity)
    else if !TradingOpen(L, m) then Some(MarketNotOpenForTrading)
    else if u >= |L.users| then Some(UserNotFound)
    else if L.users[u].balance < price * quantity.Floor then Some(InsufficientBalance)
    else None
  }

  /** Places an order: checks it, debits its notional and inserts it, matches
      it against the snapshot of eligible resting orders, then sweeps the
      unfilled rest of a market order. A failed check changes nothing. */
  function PlaceOrder(L: Ledger, u: UserId, m: MarketId, side: Side, kind: OrderType, price: int, quantity: real)
    : (r: Result<Placement>)
    ensures r.Err? <==> Check(L, u, m, price, quantity).Some?
    ensures r.Err? ==> r.error == Check(L, u, m, price, quantity).value
    ensures r.Ok? ==> r.value.id == |L.orders| && |r.value.ledger.orders| == |L.orders| + 1
  {
    match Check(L, u, m, price, quantity)
    case Some(e) => Err(e)
    case None =>
      var q := quantity.Floor;
      var L1 := Admit(L, u, m, side, kind, price, q);
      var id := |L.orders|;
      var res := MatchLoop(L1, id, Candidates(L1, id), q);
      Ok(Placement(Sweep(res.0, id), id, res.1))
  }

  /** The order a placement inserts. */
  function NewOrder(u: UserId, m: MarketId, side: Side, kind: OrderType, price: int, quantity: real): Order
  {
    Order(u, m, side, kind, price, quantity.Floor, 0, Open)
  }

  /** After admission the new order is the incoming order of a well-formed
      matching snapshot. */
  lemma AdmittedSnapshot(L: Ledger, u: UserId, m: MarketId, side: Side, kind: OrderType, price: int, quantity: real)
    requires Valid(L) && Check(L, u, m, price, quantity).None?
    ensures var L1 := Admit(L, u, m, side, kind, price, quantity.Floor);
            && Valid(L1)
            && L1.orders[|L.orders|] == NewOrder(u, m, side, kind, price, quantity)
            && Snapshot(L1, |L.orders|, Candidates(L1, |L.orders|), quantity.Floor)
  {
    var q := quantity.Floor;
    var L1 := Admit(L, u, m, side, kind, price, q);
    AdmitValid(L, u, m, side, kind, price, q);
    var id := |L.orders|;
    var cs := Candidates(L1, id);
    forall a | 0 <= a < |cs|
      ensures cs[a] < |L1.orders| && cs[a] != id && Eligible(L1.orders[id], L1.orders[cs[a]])
    {
      assert cs[a] in cs;
    }
    forall a, b | 0 <= a < b < |cs|
      ensures cs[a] != cs[b]
    {
      assert Before(L1.orders, cs[a], cs[b]);
    }
  }

  /** An accepted placement is the sweep of the match of the admitted order. */
  lemma Placed(L: Ledger, u: UserId, m: MarketId, side: Side, kind: OrderType, price: int, quantity: real)
    requires Check(L, u, m, price, quantity).None?
    ensures var q, id := quantity.Floor, |L.orders|;
            var L1 := Admit(L, u, m, side, kind, price, q);
            var res := MatchLoop(L1, id, Candidates(L1, id), q);
            PlaceOrder(L, u, m, side, kind, price, quantity) == Ok(Placement(Sweep(res.0, id), id, res.1))
  {
  }

  /** A placement keeps the ledger valid and its total value unchanged: money
      only moves between balances, reservations and positions. */
  lemma PlaceOrderValid(L: Ledger, u: UserId, m: MarketId, side: Side, kind: OrderType, price: int, quantity: real)
    requires Valid(L)
    ensures var r := PlaceOrder(L, u, m, side, kind, price, quantity);
            r.Ok? ==> Valid(r.value.ledger) && Total(r.value.ledger) == Total(L)
  {
    if Check(L, u, m, price, quantity).None? {
      var q := quantity.Floor;
      var L1 := Admit(L, u, m, side, kind, price, q);
      var id := |L.orders|;
      AdmittedSnapshot(L, u, m, side, kind, price, quantity);
      assert Valid(L1) && Snapshot(L1, id, Candidates(L1, id), q);
      MatchValid(L1, id, Candidates(L1, id), q);
      MatchIncoming(L1, id, Candidates(L1, id), q);
      SweepValid(MatchLoop(L1, id, Candidates(L1, id), q).0, id);
    }
  }

  /** The order a placement leaves behind: the inserted order with the
      quantity it traded as its fill count. A limit order keeps the status
      its fills imply (resting while not fully filled); a market order ends
      filled when it traded its whole quantity and cancelled otherwise. */
  lemma PlaceOrderOrder(L: Ledger, u: UserId, m: MarketId, side: Side, kind: OrderType, price: int, quantity: real)
    requires Valid(L)
    ensures var r := PlaceOrder(L, u, m, side, kind, price, quantity);
            r.Ok? ==>
              var L', id, ts := r.value.ledger, r.value.id, r.value.trades;
              var o, q := L'.orders[id], quantity.Floor;
              && L'.trades == L.trades + ts
              && 0 <= Traded(ts) <= q
              && o == NewOrder(u, m, side, kind, price, quantity).(filled := Traded(ts), status := o.status)
              && (kind == Limit ==> o.status == StatusFor(Traded(ts), q))
              && (kind == MarketOrder ==>
                    (o.status == Filled <==> Traded(ts) == q) && (o.status == Cancelled <==> Traded(ts) < q))
  {
    if Check(L, u, m, price, quantity).None? {
      MatchedOrder(L, u, m, side, kind, price, quantity);
    }
  }

  /** The new order and the trade log after matching, before the sweep. */
  lemma MatchedOrder(L: Ledger, u: UserId, m: MarketId, side: Side, kind: OrderType, price: int, quantity: real)
    requires Valid(L) && Check(L, u, m, price, quantity).None?
    ensures var q, id := quantity.Floor, |L.orders|;
            var L1 := Admit(L, u, m, side, kind, price, q);
            var L2, ts := MatchLoop(L1, id, Candidates(L1, id), q).0, MatchLoop(L1, id, Candidates(L1, id), q).1;
            && id < |L2.orders|
            && L2.trades == L.trades + ts
            && 0 <= Traded(ts) <= q
            && L2.orders[id] == NewOrder(u, m, side, kind, price, quantity).(filled := Traded(ts), status := StatusFor(Traded(ts), q))
            && PlaceOrder(L, u, m, side, kind, price, quantity) == Ok(Placement(Sweep(L2, id), id, ts))
  {
    var q := quantity.Floor;
    var L1 := Admit(L, u, m, side, kind, price, q);
    var id := |L.orders|;
    AdmittedSnapshot(L, u, m, side, kind, price, quantity);
    assert Valid(L1) && Snapshot(L1, id, Candidates(L1, id), q);
    MatchValid(L1, id, Candidates(L1, id), q);
    MatchIncoming(L1, id, Candidates(L1, id), q);
    var L2 := MatchLoop(L1, id, Candidates(L1, id), q).0;
    assert OrderWF(L2.orders[id], |L2.users|, |L2.markets|);
    Placed(L, u, m, side, kind, price, quantity);
  }

  /** Every trade of a placement is between the new order and an older
      resting order of another user on the other side of the same market
      whose quote crosses the new one. It prints at the complement of the
      resting quote when the new order buys yes and at the complement of the
      new quote when it buys no: a valid price no higher than the yes quote,
      whose complement is no higher than the no quote. */
  lemma PlaceOrderTrades(L: Ledger, u: UserId, m: MarketId, side: Side, kind: OrderType, price: int, quantity: real)
    requires Valid(L)
    ensures var r := PlaceOrder(L, u, m, side, kind, price, quantity);
            r.Ok? ==>
              var ts := r.value.trades;
              forall n :: 0 <= n < |ts| ==>
                && ts[n].incoming == r.value.id
                && ts[n].market == m
                && ts[n].quantity > 0
                && ts[n].resting < |L.orders|
                && L.orders[ts[n].resting].user != u
                && Eligible(NewOrder(u, m, side, kind, price, quantity), L.orders[ts[n].resting])
                && ts[n].price == (if side == Yes then Payoff - L.orders[ts[n].resting].price else Payoff - price)
                && ValidPrice(ts[n].price)
                && (side == Yes ==> ts[n].price <= price && Payoff - ts[n].price <= L.orders[ts[n].resting].price)
                && (side == No ==> ts[n].price <= L.orders[ts[n].resting].price && Payoff - ts[n].price <= price)
  {
    if Check(L, u, m, price, quantity).None? {
      var q := quantity.Floor;
      var L1 := Admit(L, u, m, side, kind, price, q);
      var id := |L.orders|;
      var cs := Candidates(L1, id);
      AdmittedSnapshot(L, u, m, side, kind, price, quantity);
      assert Valid(L1) && Snapshot(L1, id, cs, q);
      MatchTrades(L1, id, cs, q);
      assert forall j :: 0 <= j < |MatchLoop(L1, id, cs, q).1| ==>
        && MatchLoop(L1, id, cs, q).1[j].resting in cs
        && L1.orders[MatchLoop(L1, id, cs, q).1[j].resting].user != u
        && MatchLoop(L1, id, cs, q).1[j].price ==
           ExecutionPrice(L1.orders[id], L1.orders[MatchLoop(L1, id, cs, q).1[j].resting]);
      var ts := MatchLoop(L1, id, cs, q).1;
      var i := NewOrder(u, m, side, kind, price, quantity);
      assert L1.orders[id] == i;
      forall n | 0 <= n < |ts|
        ensures && ts[n].resting < |L.orders|
                && L.orders[ts[n].resting].user != u
                && Eligible(i, L.orders[ts[n].resting])
                && ts[n].price == ExecutionPrice(i, L.orders[ts[n].resting])
      {
        var r := ts[n].resting;
        assert r in cs;
        assert r < |L1.orders| && Eligible(i, L1.orders[r]);
        assert r != id by {
          assert !Eligible(i, i);
        }
        assert L1.orders[r] == L.orders[r];
      }
      forall n | 0 <= n < |ts|
        ensures && ts[n].incoming == id
                && ts[n].market == m
                && ts[n].quantity > 0
                && ValidPrice(ts[n].price)
                && (side == Yes ==> ts[n].price <= price && Payoff - ts[n].price <= L.orders[ts[n].resting].price)
                && (side == No ==> ts[n].price <= L.orders[ts[n].resting].price && Payoff - ts[n].price <= price)
      {
        assert OrderWF(L.orders[ts[n].resting], |L.users|, |L.markets|);
      }
      Placed(L, u, m, side, kind, price, quantity);
    }
  }

  /** Cash moves for the placing user alone: it pays the full notional up
      front, is refunded the improvement of each trade, and for a market
      order gets back the notional of what stayed unfilled. The owners of
      the resting orders it traded with paid when they placed them. */
  lemma PlaceOrderBalances(L: Ledger, u: UserId, m: MarketId, side: Side, kind: OrderType, price: int, quantity: real)
    requires Valid(L)
    ensures var r := PlaceOrder(L, u, m, side, kind, price, quantity);
            r.Ok? ==>
              var L', ts, q := r.value.ledger, r.value.trades, quantity.Floor;
              forall v :: 0 <= v < |L.users| ==>
                L'.users[v].balance == L.users[v].balance +
                  (if v != u then 0
                   else - price * q + Rebate(ts, side, price) +
                        (if kind == MarketOrder then price * (q - Traded(ts)) else 0))
  {
    if Check(L, u, m, price, quantity).None? {
      var q, id := quantity.Floor, |L.orders|;
      var L1 := Admit(L, u, m, side, kind, price, q);
      var L2, ts := MatchLoop(L1, id, Candidates(L1, id), q).0, MatchLoop(L1, id, Candidates(L1, id), q).1;
      MatchedBalances(L, u, m, side, kind, price, quantity);
      SweptBalances(L, L2, id, u, kind, price, q, Traded(ts), Rebate(ts, side, price));
    }
  }

  /** The balances after admission and matching, before the sweep, and the
      incoming order the sweep sees. */
  lemma MatchedBalances(L: Ledger, u: UserId, m: MarketId, side: Side, kind: OrderType, price: int, quantity: real)
    requires Valid(L) && Check(L, u, m, price, quantity).None?
    ensures var q, id := quantity.Floor, |L.orders|;
            var L1 := Admit(L, u, m, side, kind, price, q);
            var L2, ts := MatchLoop(L1, id, Candidates(L1, id), q).0, MatchLoop(L1, id, Candidates(L1, id), q).1;
            && |L2.users| == |L.users| && id < |L2.orders|
            && L2.orders[id].user == u && L2.orders[id].kind == kind && L2.orders[id].price == price
            && Unfilled(L2.orders[id]) == q - Traded(ts) && Traded(ts) <= q
            && (forall v :: 0 <= v < |L.users| ==>
                  L2.users[v].balance == L.users[v].balance + (if v == u then - price * q + Rebate(ts, side, price) else 0))
            && PlaceOrder(L, u, m, side, kind, price, quantity) == Ok(Placement(Sweep(L2, id), id, ts))
  {
    var q := quantity.Floor;
    var L1 := Admit(L, u, m, side, kind, price, q);
    var id := |L.orders|;
    var cs := Candidates(L1, id);
    AdmittedSnapshot(L, u, m, side, kind, price, quantity);
    assert Valid(L1) && Snapshot(L1, id, cs, q);
    MatchBalances(L1, id, cs, q);
    MatchIncoming(L1, id, cs, q);
    MatchValid(L1, id, cs, q);
    var L2 := MatchLoop(L1, id, cs, q).0;
    assert OrderWF(L2.orders[id], |L2.users|, |L2.markets|);
    Placed(L, u, m, side, kind, price, quantity);
  }

  /** The sweep adds the refund of a market order's unfilled quantity to the
      placing user's balance after matching. */
  lemma SweptBalances(L: Ledger, L2: Ledger, id: OrderId, u: UserId, kind: OrderType, price: int, q: int,
                      traded: int, rebate: int)
    requires id < |L2.orders| && |L2.users| == |L.users|
    requires L2.orders[id].user == u && L2.orders[id].kind == kind && L2.orders[id].price == price
    requires Unfilled(L2.orders[id]) == q - traded && traded <= q
    requires forall v :: 0 <= v < |L.users| ==>
               L2.users[v].balance == L.users[v].balance + (if v == u then - price * q + rebate else 0)
    ensures forall v :: 0 <= v < |L.users| ==>
              Sweep(L2, id).users[v].balance == L.users[v].balance +
                (if v != u then 0
                 else - price * q + rebate + (if kind == MarketOrder then price * (q - traded) else 0))
  {
    if kind == MarketOrder && traded >= q {
      assert price * (q - traded) == 0;
    }
  }

  /** Positions move by the placement's trades alone: the holding of every
      (user, market, side) gains what the trades bring to it, the new order
      counted among the orders. The placing user's holding on its side gains
      exactly the quantity traded, costed at the yes notional for a yes order
      and at its complement for a no order; every resting owner's holding
      gains what was bought from its orders, at their quotes. */
  lemma PlaceOrderPositions(L: Ledger, u: UserId, m: MarketId, side: Side, kind: OrderType, price: int, quantity: real)
    requires Valid(L)
    ensures var r := PlaceOrder(L, u, m, side, kind, price, quantity);
            r.Ok? ==>
              var L', ts := r.value.ledger, r.value.trades;
              var os := L.orders + [NewOrder(u, m, side, kind, price, quantity)];
              && (forall v, mk, s ::
                    && Sum(L'.positions, HeldShares(v, mk, s)) ==
                       Sum(L.positions, HeldShares(v, mk, s)) + Acquired(os, ts, v, mk, s) as real
                    && Sum(L'.positions, HeldCost(v, mk, s)) ==
                       Sum(L.positions, HeldCost(v, mk, s)) + AcquiredCost(os, ts, v, mk, s) as real)
              && Acquired(os, ts, u, m, side) == Traded(ts)
              && AcquiredCost(os, ts, u, m, side) ==
                 (if side == Yes then Notional(ts) else Payoff * Traded(ts) - Notional(ts))
  {
    if Check(L, u, m, price, quantity).None? {
      MatchedPositions(L, u, m, side, kind, price, quantity);
    }
  }

  /** The holdings after admission and matching, before the sweep. */
  lemma MatchedPositions(L: Ledger, u: UserId, m: MarketId, side: Side, kind: OrderType, price: int, quantity: real)
    requires Valid(L) && Check(L, u, m, price, quantity).None?
    ensures var q, id := quantity.Floor, |L.orders|;
            var L1 := Admit(L, u, m, side, kind, price, q);
            var L2, ts := MatchLoop(L1, id, Candidates(L1, id), q).0, MatchLoop(L1, id, Candidates(L1, id), q).1;
            && L1.orders == L.orders + [NewOrder(u, m, side, kind, price, quantity)]
            && (forall v, mk, s ::
                  && Sum(L2.positions, HeldShares(v, mk, s)) ==
                     Sum(L.positions, HeldShares(v, mk, s)) + Acquired(L1.orders, ts, v, mk, s) as real
                  && Sum(L2.positions, HeldCost(v, mk, s)) ==
                     Sum(L.positions, HeldCost(v, mk, s)) + AcquiredCost(L1.orders, ts, v, mk, s) as real)
            && Acquired(L1.orders, ts, u, m, side) == Traded(ts)
            && AcquiredCost(L1.orders, ts, u, m, side) ==
               (if side == Yes then Notional(ts) else Payoff * Traded(ts) - Notional(ts))
            && PlaceOrder(L, u, m, side, kind, price, quantity) == Ok(Placement(Sweep(L2, id), id, ts))
  {
    var q := quantity.Floor;
    var L1 := Admit(L, u, m, side, kind, price, q);
    var id := |L.orders|;
    var cs := Candidates(L1, id);
    AdmittedSnapshot(L, u, m, side, kind, price, quantity);
    assert Valid(L1) && Snapshot(L1, id, cs, q);
    forall v, mk, s
      ensures var L2, ts := MatchLoop(L1, id, cs, q).0, MatchLoop(L1, id, cs, q).1;
              && Sum(L2.positions, HeldShares(v, mk, s)) ==
                 Sum(L.positions, HeldShares(v, mk, s)) + Acquired(L1.orders, ts, v, mk, s) as real
              && Sum(L2.positions, HeldCost(v, mk, s)) ==
                 Sum(L.positions, HeldCost(v, mk, s)) + AcquiredCost(L1.orders, ts, v, mk, s) as real
    {
      MatchHeld(L1, id, cs, q, v, mk, s);
    }
    MatchTrades(L1, id, cs, q);
    var ts := MatchLoop(L1, id, cs, q).1;
    forall n | 0 <= n < |ts|
      ensures ts[n].incoming == id && ts[n].resting < |L1.orders| && L1.orders[ts[n].resting].user != L1.orders[id].user
    {
      assert ts[n].resting in cs;
    }
    AcquiredByIncoming(L1.orders, ts, id);
    Placed(L, u, m, side, kind, price, quantity);
  }

  /** Each trade of a placement fills the smaller of what the new order still
      wants, its quantity less what the earlier trades took, and what the
      resting order has unfilled. */
  lemma PlaceOrderFills(L: Ledger, u: UserId, m: MarketId, side: Side, kind: OrderType, price: int, quantity: real)
    requires Valid(L)
    ensures var r := PlaceOrder(L, u, m, side, kind, price, quantity);
            r.Ok? ==>
              var ts := r.value.trades;
              forall n :: 0 <= n < |ts| ==>
                && ts[n].resting < |L.orders|
                && ts[n].quantity == Min(quantity.Floor - Traded(ts[..n]), Unfilled(L.orders[ts[n].resting]))
  {
    if Check(L, u, m, price, quantity).None? {
      MatchedFills(L, u, m, side, kind, price, quantity);
    }
  }

  /** The fills of the matching that follows admission. */
  lemma MatchedFills(L: Ledger, u: UserId, m: MarketId, side: Side, kind: OrderType, price: int, quantity: real)
    requires Valid(L) && Check(L, u, m, price, quantity).None?
    ensures var q, id := quantity.Floor, |L.orders|;
            var L1 := Admit(L, u, m, side, kind, price, q);
            var L2, ts := MatchLoop(L1, id, Candidates(L1, id), q).0, MatchLoop(L1, id, Candidates(L1, id), q).1;
            && FillsFrom(L.orders, ts, q)
            && PlaceOrder(L, u, m, side, kind, price, quantity) == Ok(Placement(Sweep(L2, id), id, ts))
  {
    var q := quantity.Floor;
    var L1 := Admit(L, u, m, side, kind, price, q);
    var id := |L.orders|;
    var cs := Candidates(L1, id);
    AdmittedSnapshot(L, u, m, side, kind, price, quantity);
    assert Valid(L1) && Snapshot(L1, id, cs, q);
    MatchFills(L1, id, cs, q);
    MatchTrades(L1, id, cs, q);
    var ts := MatchLoop(L1, id, cs, q).1;
    assert FillsFrom(L1.orders, ts, q);
    forall n | 0 <= n < |ts|
      ensures ts[n].resting < |L.orders| && L1.orders[ts[n].resting] == L.orders[ts[n].resting]
    {
      assert ts[n].resting in cs;
    }
    FillsTransfer(L1.orders, L.orders, ts, q);
    Placed(L, u, m, side, kind, price, quantity);
  }

  /** The orders a placement does not trade with are untouched: any older
      order that is not eligible against the new one, and every order of the
      placing user (no self-trade). An older order it did trade with gains
      exactly the quantity traded against it. */
  lemma PlaceOrderOthers(L: Ledger, u: UserId, m: MarketId, side: Side, kind: OrderType, price: int, quantity: real)
    requires Valid(L)
    ensures var r := PlaceOrder(L, u, m, side, kind, price, quantity);
            r.Ok? ==>
              var L', ts := r.value.ledger, r.value.trades;
              && (forall k :: 0 <= k < |L.orders| ==>
                    L'.orders[k].filled == L.orders[k].filled + TradedAgainst(ts, k))
              && (forall k :: 0 <= k < |L.orders| ==>
                    (!Eligible(NewOrder(u, m, side, kind, price, quantity), L.orders[k]) || L.orders[k].user == u ==>
                       L'.orders[k] == L.orders[k]))
  {
    if Check(L, u, m, price, quantity).None? {
      var q := quantity.Floor;
      var L1 := Admit(L, u, m, side, kind, price, q);
      var id := |L.orders|;
      var cs := Candidates(L1, id);
      AdmittedSnapshot(L, u, m, side, kind, price, quantity);
      assert Valid(L1) && Snapshot(L1, id, Candidates(L1, id), q);
      MatchOthers(L1, id, cs, q);
      forall k | 0 <= k < |L.orders|
        ensures L1.orders[k] == L.orders[k] && k != id
      {
      }
    }
  }

  /** Fairness of matching: a placement that leaves quantity unfilled has
      filled every eligible order of another user completely, and among
      eligible orders of other users one that comes later in price-time
      priority is touched only once every earlier one is filled. */
  lemma PlaceOrderFair(L: Ledger, u: UserId, m: MarketId, side: Side, kind: OrderType, price: int, quantity: real)
    requires Valid(L)
    ensures var r := PlaceOrder(L, u, m, side, kind, price, quantity);
            var n := NewOrder(u, m, side, kind, price, quantity);
            r.Ok? ==>
              var L', ts := r.value.ledger, r.value.trades;
              && (forall k :: 0 <= k < |L.orders| ==>
                    (Traded(ts) < quantity.Floor && Eligible(n, L.orders[k]) && L.orders[k].user != u ==>
                       L'.orders[k].status == Filled))
              && (forall a, b :: 0 <= a < |L.orders| && 0 <= b < |L.orders| ==>
                    (Eligible(n, L.orders[a]) && Eligible(n, L.orders[b]) && L.orders[a].user != u &&
                     Before(L.orders, a, b) && L'.orders[b].filled > L.orders[b].filled ==>
                       L'.orders[a].status == Filled))
  {
    if Check(L, u, m, price, quantity).None? {
      var q := quantity.Floor;
      var L1 := Admit(L, u, m, side, kind, price, q);
      var id := |L.orders|;
      var cs := Candidates(L1, id);
      AdmittedSnapshot(L, u, m, side, kind, price, quantity);
      assert Valid(L1) && Snapshot(L1, id, Candidates(L1, id), q);
      MatchIncoming(L1, id, cs, q);
      MatchExhausts(L1, id, cs, q);
      MatchPriority(L1, id, cs, q);
      var L2 := MatchLoop(L1, id, cs, q).0;
      var L' := Sweep(L2, id);
      var ts := MatchLoop(L1, id, cs, q).1;
      forall k | 0 <= k < |L.orders|
        ensures Traded(ts) < q && Eligible(NewOrder(u, m, side, kind, price, quantity), L.orders[k]) && L.orders[k].user != u ==>
                  L'.orders[k].status == Filled
      {
        if Eligible(NewOrder(u, m, side, kind, price, quantity), L.orders[k]) {
          assert L1.orders[k] == L.orders[k];
          assert k in cs;
          var a :| 0 <= a < |cs| && cs[a] == k;
        }
      }
      forall a, b | 0 <= a < |L.orders| && 0 <= b < |L.orders|
        ensures Eligible(NewOrder(u, m, side, kind, price, quantity), L.orders[a]) &&
                Eligible(NewOrder(u, m, side, kind, price, quantity), L.orders[b]) && L.orders[a].user != u &&
                Before(L.orders, a, b) && L'.orders[b].filled > L.orders[b].filled ==>
                  L'.orders[a].status == Filled
      {
        if Eligible(NewOrder(u, m, side, kind, price, quantity), L.orders[a]) &&
           Eligible(NewOrder(u, m, side, kind, price, quantity), L.orders[b]) && Before(L.orders, a, b) {
          assert L1.orders[a] == L.orders[a] && L1.orders[b] == L.orders[b];
          assert a in cs && b in cs;
          var ia :| 0 <= ia < |cs| && cs[ia] == a;
          var ib :| 0 <= ib < |cs| && cs[ib] == b;
          SortedPositions(L1.orders, cs, ia, ib);
        }
      }
    }
  }

  /** A placement prints on its own market alone: after at least one trade
      the market's prices are the last trade's and its volume has grown by
      the trades' notional; without trades the market is unchanged. */
  lemma PlaceOrderMarket(L: Ledger, u: UserId, m: MarketId, side: Side, kind: OrderType, price: int, quantity: real)
    requires Valid(L)
    ensures var r := PlaceOrder(L, u, m, side, kind, price, quantity);
            r.Ok? ==>
              var L', ts := r.value.ledger, r.value.trades;
              && |L'.markets| == |L.markets|
              && (forall k :: 0 <= k < |L.markets| && k != m ==> L'.markets[k] == L.markets[k])
              && (|ts| == 0 ==> L'.markets[m] == L.markets[m])
              && (|ts| > 0 ==>
                    L'.markets[m] == L.markets[m].(yesPrice := ts[|ts| - 1].price, noPrice := Payoff - ts[|ts| - 1].price,
                                                   volume := L.markets[m].volume + Notional(ts)))
  {
    if Check(L, u, m, price, quantity).None? {
      var q := quantity.Floor;
      var L1 := Admit(L, u, m, side, kind, price, q);
      var id := |L.orders|;
      AdmittedSnapshot(L, u, m, side, kind, price, quantity);
      assert Valid(L1) && Snapshot(L1, id, Candidates(L1, id), q);
      MatchMarket(L1, id, Candidates(L1, id), q);
    }
  }

  /** Cancels a user's own order that still rests, refunding the notional of
      its unfilled quantity. An order of another user is reported as not
      found, exactly like a missing one. */
  function CancelOrder(L: Ledger, id: OrderId, u: UserId): (r: Result<Ledger>)
    ensures r == Err(OrderNotFound) <==> id >= |L.orders| || L.orders[id].user != u
    ensures r == Err(OrderNotCancellable) <==>
              id < |L.orders| && L.orders[id].user == u &&
              (L.orders[id].status == Filled || L.orders[id].status == Cancelled)
    ensures r.Ok? ==>
              && id < |L.orders| && Resting(L.orders[id])
              && |r.value.orders| == |L.orders|
              && r.value.orders[id] == L.orders[id].(status := Cancelled)
              && (forall k :: 0 <= k < |L.orders| && k != id ==> r.value.orders[k] == L.orders[k])
              && |r.value.users| == |L.users|
              && (forall v :: 0 <= v < |L.users| ==>
                    r.value.users[v].balance == L.users[v].balance + (if v == u then L.orders[id].price * Unfilled(L.orders[id]) else 0))
              && r.value.markets == L.markets && r.value.trades == L.trades && r.value.positions == L.positions
  {
    if id >= |L.orders| || L.orders[id].user != u then Err(OrderNotFound)
    else if L.orders[id].status == Filled || L.orders[id].status == Cancelled then Err(OrderNotCancellable)
    else Ok(Release(L, id))
  }

  /** Cancelling keeps the ledger valid and its total value unchanged (the
      refund is exactly the released reservation), and cancelling the same
      order again is refused. */
  lemma CancelOrderValid(L: Ledger, id: OrderId, u: UserId)
    requires Valid(L)
    ensures var r := CancelOrder(L, id, u);
            r.Ok? ==>
              && Valid(r.value)
              && Total(r.value) == Total(L)
              && CancelOrder(r.value, id, u) == Err(OrderNotCancellable)
  {
    if id < |L.orders| {
      ReleaseValid(L, id);
    }
  }

  /** The resting bids of each side of a market. */
  datatype Book = Book(yesBids: seq<OrderId>, noBids: seq<OrderId>)

  /** Lists the resting orders of each side of a market in price-time
      priority. */
  function GetOrderBook(L: Ledger, m: MarketId): (b: Book)
    ensures Sorted(L.orders, b.yesBids) && Sorted(L.orders, b.noBids)
    ensures forall id: nat :: id in b.yesBids ==>
              id < |L.orders| && L.orders[id].market == m && L.orders[id].side == Yes && Resting(L.orders[id])
    ensures forall id: nat :: id in b.noBids ==>
              id < |L.orders| && L.orders[id].market == m && L.orders[id].side == No && Resting(L.orders[id])
  {
    Book(Queue(L.orders, m, Yes, 0, |L.orders|), Queue(L.orders, m, No, 0, |L.orders|))
  }

  function Bids(b: Book, side: Side): seq<OrderId>
  {
    if side == Yes then b.yesBids else b.noBids
  }

  /** In a valid ledger each side of the book holds exactly the resting
      orders of that side, and is the one listing of them in price-time
      priority. */
  lemma BookIsRestingOrders(L: Ledger, m: MarketId, side: Side, s: seq<OrderId>)
    requires Valid(L)
    ensures forall id: nat :: id in Bids(GetOrderBook(L, m), side) <==>
              id < |L.orders| && L.orders[id].market == m && L.orders[id].side == side && Resting(L.orders[id])
    ensures Sorted(L.orders, s) &&
            (forall id: nat :: id in s <==>
               id < |L.orders| && L.orders[id].market == m && L.orders[id].side == side && Resting(L.orders[id])) ==>
              s == Bids(GetOrderBook(L, m), side)
  {
    forall id: nat | id < |L.orders|
      ensures L.orders[id].price >= 0
    {
      assert OrderWF(L.orders[id], |L.users|, |L.markets|);
    }
    if Sorted(L.orders, s) &&
       (forall id: nat :: id in s <==>
          id < |L.orders| && L.orders[id].market == m && L.orders[id].side == side && Resting(L.orders[id])) {
      QueueIsPriceTimeOrder(L.orders, m, side, 0, s);
    }
  }

  /** The snapshot an incoming order is matched against is the opposite side
      of its market's book cut at the complement of its price. */
  lemma CandidatesAreBookPrefix(L: Ledger, inc: OrderId)
    requires Valid(L) && inc < |L.orders|
    ensures var i := L.orders[inc];
            forall id: nat :: id in Candidates(L, inc) <==>
              id in Bids(GetOrderBook(L, i.market), Opposite(i.side)) && L.orders[id].price >= Payoff - i.price
  {
    BookIsRestingOrders(L, L.orders[inc].market, Opposite(L.orders[inc].side), []);
  }
}
