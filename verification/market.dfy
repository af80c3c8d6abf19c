/** The market lifecycle: opening a market, and the two terminal transitions
    out of the open state. Resolving a market cancels the orders resting on
    its book, pays every winning share one payoff and books the realized
    P&L of both sides; cancelling a market cancels the resting orders and
    refunds every position its cost. Either way the market stops trading
    for good. */
module MarketManager {
  import opened Sums
  import opened Types
  import opened Mutator
  import opened Matching
  import opened OrderBook

  // ---- creation and lookup -------------------------------------------------

  /** Opens a market as the newest one, at the given yes price or the default
      one, with the no price its complement and no volume yet. */
  function CreateMarket(L: Ledger, info: MarketInfo, initialYes: Option<int>): (r: (Ledger, MarketId))
    ensures r.1 == |L.markets| && |r.0.markets| == |L.markets| + 1
    ensures r.0 == L.(markets := r.0.markets) && r.0.markets[..|L.markets|] == L.markets
    ensures var mk := r.0.markets[r.1];
            && mk.info == info
            && mk.status == MarketOpen
            && mk.volume == 0
            && mk.yesPrice == (if initialYes.Some? then initialYes.value else DefaultYesPrice)
            && mk.yesPrice + mk.noPrice == Payoff
  {
    var yes := if initialYes.Some? then initialYes.value else DefaultYesPrice;
    var mk := Market(info, MarketOpen, yes, Payoff - yes, 0);
    (L.(markets := L.markets + [mk]), |L.markets|)
  }

  /** The market with id m, if there is one. */
  function GetMarket(L: Ledger, m: MarketId): (r: Option<Market>)
    ensures r.Some? <==> m < |L.markets|
    ensures r.Some? ==> r.value == L.markets[m]
  {
    if m < |L.markets| then Some(L.markets[m]) else None
  }

  /** A new market keeps the ledger valid and moves no money; it is found
      under its id and takes orders at once. */
  lemma CreateMarketValid(L: Ledger, info: MarketInfo, initialYes: Option<int>)
    requires Valid(L)
    ensures var (L', id) := CreateMarket(L, info, initialYes);
            && Valid(L')
            && Total(L') == Total(L)
            && GetMarket(L', id) == Some(L'.markets[id])
            && TradingOpen(L', id)
            && (forall m :: 0 <= m < |L.markets| ==> GetMarket(L', m) == GetMarket(L, m))
  {
    var L' := CreateMarket(L, info, initialYes).0;
    forall m | 0 <= m < |L.markets|
      ensures L'.markets[m] == L.markets[m]
    {
      assert L'.markets[..|L.markets|][m] == L.markets[m];
    }
    assert MarketWF(L'.markets[|L.markets|]);
  }

  // ---- sweeping a market's book ---------------------------------------------

  /** A market-wide sweep of market m takes the orders resting on its book. */
  predicate Swept(o: Order, m: MarketId)
  {
    o.market == m && Resting(o)
  }

  /** What a sweep of market m refunds user v for order o: the notional of
      the unfilled quantity of v's resting orders there. */
  function Refundable(m: MarketId, v: UserId): Order -> real
  {
    (o: Order) => if Swept(o, m) && o.user == v then (o.price * Unfilled(o)) as real else 0.0
  }

  /** Cancels the orders among the first n that rest on market m's book and
      refunds each owner the notional of the unfilled quantity. Which orders
      are taken, and for how much, is read from the orders as they were when
      the sweep began. */
  function CancelResting(L: Ledger, m: MarketId, n: nat): (L': Ledger)
    requires n <= |L.orders|
    ensures L'.markets == L.markets && L'.trades == L.trades && L'.positions == L.positions
    ensures |L'.users| == |L.users| && |L'.orders| == |L.orders|
    decreases n
  {
    if n == 0 then L
    else
      var L1 := CancelResting(L, m, n - 1);
      if Swept(L.orders[n - 1], m) then Release(L1, n - 1) else L1
  }

  /** A sweep cancels exactly the resting orders of the market, refunds each
      user the unfilled notional of its own, keeps the ledger valid and moves
      no value: every refund is a reservation released. */
  lemma {:induction false} CancelRestingEffect(L: Ledger, m: MarketId, n: nat)
    requires Valid(L) && n <= |L.orders|
    ensures var L' := CancelResting(L, m, n);
            && Valid(L')
            && Total(L') == Total(L)
            && (forall k :: 0 <= k < |L.orders| ==>
                  L'.orders[k] == if k < n && Swept(L.orders[k], m) then L.orders[k].(status := Cancelled) else L.orders[k])
            && (forall v :: 0 <= v < |L.users| ==>
                  L'.users[v].balance as real == L.users[v].balance as real + Sum(L.orders[..n], Refundable(m, v)))
    decreases n
  {
    if n == 0 {
      assert L.orders[..0] == [];
    } else {
      var L1 := CancelResting(L, m, n - 1);
      CancelRestingEffect(L, m, n - 1);
      var o := L.orders[n - 1];
      assert L1.orders[n - 1] == o;
      assert L.orders[..n][..n - 1] == L.orders[..n - 1];
      if Swept(o, m) {
        assert OrderWF(o, |L.users|, |L.markets|);
        ReleaseValid(L1, n - 1);
      }
    }
  }

  // ---- settling positions ---------------------------------------------------

  /** How a settlement pass treats the positions it takes: the winning side
      is paid one payoff per share and books its profit, the losing side
      books its cost as a loss, and a cancelled market refunds the cost. */
  datatype Settlement = Win | Lose | Void

  /** Whether a pass of this kind for `side` of market m takes position p: a
      position on the market that holds shares, on that side unless the pass
      refunds both sides. */
  predicate Settles(p: Position, m: MarketId, side: Side, kind: Settlement)
  {
    p.market == m && p.shares > 0 && (kind == Void || p.side == side)
  }

  /** The cents a pass credits the holder of p. A refund is the cost basis
      rounded to whole cents. */
  function Payment(kind: Settlement, p: Position): int
  {
    match kind
    case Win => Payoff * p.shares
    case Lose => 0
    case Void => Cents(CostBasis(p))
  }

  /** The realized P&L a pass books on p, rounded to whole cents: the payoff
      less the cost for a winner, minus the cost for a loser. */
  function Booked(kind: Settlement, p: Position): int
  {
    match kind
    case Win => Cents((Payoff * p.shares) as real - CostBasis(p))
    case Lose => Cents(-CostBasis(p))
    case Void => 0
  }

  /** What a pass pays out for p, whoever holds it. */
  function Paid(m: MarketId, side: Side, kind: Settlement): Position -> real
  {
    (p: Position) => if Settles(p, m, side, kind) then Payment(kind, p) as real else 0.0
  }

  /** What a pass pays user v for p. */
  function PaidTo(m: MarketId, side: Side, kind: Settlement, v: UserId): Position -> real
  {
    (p: Position) => if Settles(p, m, side, kind) && p.user == v then Payment(kind, p) as real else 0.0
  }

  /** Books a settlement on position i: its realized P&L moves by pnl and its
      holder is credited `credit`; shares and average price stay. */
  function Book(L: Ledger, i: nat, credit: int, pnl: int): (L': Ledger)
    requires i < |L.positions|
    ensures L'.markets == L.markets && L'.orders == L.orders && L'.trades == L.trades
    ensures |L'.users| == |L.users|
    ensures L'.positions == L.positions[i := L.positions[i].(realizedPnl := L.positions[i].realizedPnl + pnl)]
    ensures forall v :: 0 <= v < |L.users| ==>
              L'.users[v].balance == L.users[v].balance + (if v == L.positions[i].user then credit else 0)
  {
    var p := L.positions[i];
    Credit(L.(positions := L.positions[i := p.(realizedPnl := p.realizedPnl + pnl)]), p.user, credit)
  }

  /** Booking a non-negative credit keeps the ledger valid and adds exactly
      the credit to its total value: realized P&L is not part of it. */
  lemma BookValid(L: Ledger, i: nat, credit: int, pnl: int)
    requires Valid(L) && i < |L.positions| && credit >= 0
    ensures Valid(Book(L, i, credit, pnl))
    ensures Total(Book(L, i, credit, pnl)) == Total(L) + credit as real
  {
    var p := L.positions[i];
    var p' := p.(realizedPnl := p.realizedPnl + pnl);
    var L1 := L.(positions := L.positions[i := p']);
    SumUpdate(L.positions, i, p', CostBasis);
    assert PositionsUnique(L1.positions) by {
      forall a, b | 0 <= a < b < |L1.positions|
        ensures !Holds(L1.positions[b], L1.positions[a].user, L1.positions[a].market, L1.positions[a].side)
      {
        assert !Holds(L.positions[b], L.positions[a].user, L.positions[a].market, L.positions[a].side);
      }
    }
    assert CostBasis(p') == CostBasis(p);
    assert PositionWF(p', |L.users|, |L.markets|);
    assert Valid(L1);
    CreditValid(L1, p.user, credit);
  }

  /** Payments are never negative on a well-formed position with shares. */
  lemma PaymentNonNegative(kind: Settlement, p: Position, users: nat, markets: nat)
    requires PositionWF(p, users, markets) && p.shares > 0
    ensures Payment(kind, p) >= 0
  {
    ProductNonNegative(p.avgPrice, p.shares as real);
  }

  /** Settles the positions among the first n that the pass takes. Which
      positions are taken, and for how much, is read from the positions as
      they were when the pass began. */
  function Settle(L: Ledger, m: MarketId, side: Side, kind: Settlement, n: nat): (L': Ledger)
    requires n <= |L.positions|
    ensures L'.markets == L.markets && L'.orders == L.orders && L'.trades == L.trades
    ensures |L'.users| == |L.users| && |L'.positions| == |L.positions|
    decreases n
  {
    if n == 0 then L
    else
      var L1 := Settle(L, m, side, kind, n - 1);
      var p := L.positions[n - 1];
      if Settles(p, m, side, kind) then Book(L1, n - 1, Payment(kind, p), Booked(kind, p)) else L1
  }

  /** A pass keeps the ledger valid and adds to its total value exactly
      what it pays out. */
  lemma {:induction false} SettleValid(L: Ledger, m: MarketId, side: Side, kind: Settlement, n: nat)
    requires Valid(L) && n <= |L.positions|
    ensures Valid(Settle(L, m, side, kind, n))
    ensures Total(Settle(L, m, side, kind, n)) == Total(L) + Sum(L.positions[..n], Paid(m, side, kind))
    decreases n
  {
    if n == 0 {
      assert L.positions[..0] == [];
    } else {
      var L1 := Settle(L, m, side, kind, n - 1);
      SettleValid(L, m, side, kind, n - 1);
      SettlePositions(L, m, side, kind, n - 1);
      var p := L.positions[n - 1];
      assert L1.positions[n - 1] == p;
      assert L.positions[..n][..n - 1] == L.positions[..n - 1];
      if Settles(p, m, side, kind) {
        assert PositionWF(p, |L.users|, |L.markets|);
        PaymentNonNegative(kind, p, |L.users|, |L.markets|);
        BookValid(L1, n - 1, Payment(kind, p), Booked(kind, p));
      }
    }
  }

  /** A pass books the P&L of exactly the positions it takes and changes
      nothing else in any position. */
  lemma {:induction false} SettlePositions(L: Ledger, m: MarketId, side: Side, kind: Settlement, n: nat)
    requires n <= |L.positions|
    ensures forall j :: 0 <= j < |L.positions| ==>
              Settle(L, m, side, kind, n).positions[j] ==
                if j < n && Settles(L.positions[j], m, side, kind)
                then L.positions[j].(realizedPnl := L.positions[j].realizedPnl + Booked(kind, L.positions[j]))
                else L.positions[j]
    decreases n
  {
    if n > 0 {
      SettlePositions(L, m, side, kind, n - 1);
    }
  }

  /** A pass pays each user what it pays for that user's positions. */
  lemma {:induction false} SettleBalances(L: Ledger, m: MarketId, side: Side, kind: Settlement, n: nat)
    requires n <= |L.positions|
    ensures forall v :: 0 <= v < |L.users| ==>
              Settle(L, m, side, kind, n).users[v].balance as real ==
                L.users[v].balance as real + Sum(L.positions[..n], PaidTo(m, side, kind, v))
    decreases n
  {
    if n == 0 {
      assert L.positions[..0] == [];
    } else {
      var L1 := Settle(L, m, side, kind, n - 1);
      SettleBalances(L, m, side, kind, n - 1);
      SettlePositions(L, m, side, kind, n - 1);
      var p := L.positions[n - 1];
      assert L1.positions[n - 1] == p;
      assert L.positions[..n][..n - 1] == L.positions[..n - 1];
      var L' := Settle(L, m, side, kind, n);
      forall v | 0 <= v < |L.users|
        ensures L'.users[v].balance as real ==
                  L.users[v].balance as real + Sum(L.positions[..n], PaidTo(m, side, kind, v))
      {
        assert Sum(L.positions[..n], PaidTo(m, side, kind, v)) ==
               Sum(L.positions[..n - 1], PaidTo(m, side, kind, v)) + PaidTo(m, side, kind, v)(p);
        if Settles(p, m, side, kind) {
          assert L'.users[v].balance == L1.users[v].balance + (if v == p.user then Payment(kind, p) else 0);
        }
      }
    }
  }

  /** A losing pass pays nobody anything. */
  lemma {:induction false} LosersPaidNothing(s: seq<Position>, m: MarketId, side: Side, v: UserId)
    ensures Sum(s, Paid(m, side, Lose)) == 0.0
    ensures Sum(s, PaidTo(m, side, Lose, v)) == 0.0
    decreases |s|
  {
    if |s| > 0 {
      LosersPaidNothing(s[..|s| - 1], m, side, v);
    }
  }

  /** A winning pass pays each user one payoff for every share it holds on
      the winning side of the market. */
  lemma {:induction false} WinnersPaidPerShare(s: seq<Position>, m: MarketId, side: Side, v: UserId)
    requires forall k :: 0 <= k < |s| ==> s[k].shares >= 0
    ensures Sum(s, PaidTo(m, side, Win, v)) == Payoff as real * Sum(s, HeldShares(v, m, side))
    decreases |s|
  {
    if |s| > 0 {
      WinnersPaidPerShare(s[..|s| - 1], m, side, v);
    }
  }

  /** What user v holds at cost on either side of market m. */
  function MarketCost(m: MarketId, v: UserId): Position -> real
  {
    (p: Position) => if p.market == m && p.user == v then CostBasis(p) else 0.0
  }

  /** The cost of every position on market m, whoever holds it. */
  function AllMarketCost(m: MarketId): Position -> real
  {
    (p: Position) => if p.market == m then CostBasis(p) else 0.0
  }

  /** A refund pass pays back each position's cost to the cent: on
      well-formed positions the cost basis is a whole number of cents, so
      the rounding is exact, and a position without shares costs nothing. */
  lemma {:induction false} RefundsAtCost(s: seq<Position>, m: MarketId, side: Side, v: UserId, users: nat, markets: nat)
    requires forall k :: 0 <= k < |s| ==> PositionWF(s[k], users, markets)
    ensures Sum(s, PaidTo(m, side, Void, v)) == Sum(s, MarketCost(m, v))
    ensures Sum(s, Paid(m, side, Void)) == Sum(s, AllMarketCost(m))
    decreases |s|
  {
    if |s| > 0 {
      var p := s[|s| - 1];
      RefundsAtCost(s[..|s| - 1], m, side, v, users, markets);
      assert PositionWF(p, users, markets);
      if p.shares > 0 {
        CentsExact(CostBasis(p));
      } else {
        assert CostBasis(p) == 0.0;
      }
      assert PaidTo(m, side, Void, v)(p) == MarketCost(m, v)(p);
      assert Paid(m, side, Void)(p) == AllMarketCost(m)(p);
    }
  }

  /** On a well-formed position the P&L a resolution books is exact: the
      cost basis is a whole number of cents, so rounding changes nothing. */
  lemma BookedExactly(p: Position, users: nat, markets: nat)
    requires PositionWF(p, users, markets)
    ensures Booked(Win, p) as real == (Payoff * p.shares) as real - CostBasis(p)
    ensures Booked(Lose, p) as real == - CostBasis(p)
  {
    IntegralAdd(CostBasis(p), Payoff * p.shares);
    CentsExact((Payoff * p.shares) as real - CostBasis(p));
    IntegralAdd(CostBasis(p), 0);
    assert -CostBasis(p) == 0 as real - CostBasis(p);
    CentsExact(-CostBasis(p));
  }

  // ---- resolution and cancellation -----------------------------------------

  /** The status a market takes when it resolves to `outcome`. */
  function ResolvedStatus(outcome: Side): MarketStatus
  {
    if outcome == Yes then ResolvedYes else ResolvedNo
  }

  /** A market that can no longer trade: it exists and is not open. */
  predicate Closed(L: Ledger, m: MarketId)
  {
    m < |L.markets| && L.markets[m].status != MarketOpen
  }

  /** Resolves an open market to `outcome`: the market shows the terminal
      prices (the winning side at one payoff), every order resting on its
      book is cancelled and refunded, every winning position is paid and
      books its profit, and every losing position books its loss. Shares
      stay where they are. */
  function ResolveMarket(L: Ledger, m: MarketId, outcome: Side): (r: Result<Ledger>)
    ensures r == Err(MarketNotFound) <==> m >= |L.markets|
    ensures r == Err(MarketNotOpen) <==> Closed(L, m)
    ensures r.Ok? ==>
              && TradingOpen(L, m)
              && |r.value.markets| == |L.markets|
              && (forall k :: 0 <= k < |L.markets| && k != m ==> r.value.markets[k] == L.markets[k])
              && r.value.markets[m].info == L.markets[m].info
              && r.value.markets[m].volume == L.markets[m].volume
              && r.value.markets[m].status == ResolvedStatus(outcome)
              && r.value.markets[m].yesPrice == (if outcome == Yes then Payoff else 0)
              && r.value.markets[m].noPrice == (if outcome == No then Payoff else 0)
              && r.value.trades == L.trades
  {
    if m >= |L.markets| then Err(MarketNotFound)
    else if L.markets[m].status != MarketOpen then Err(MarketNotOpen)
    else
      var mk := L.markets[m];
      var L1 := L.(markets := L.markets[m := mk.(status := ResolvedStatus(outcome),
                                                 yesPrice := if outcome == Yes then Payoff else 0,
                                                 noPrice := if outcome == Yes then 0 else Payoff)]);
      var L2 := CancelResting(L1, m, |L1.orders|);
      var L3 := Settle(L2, m, outcome, Win, |L2.positions|);
      Ok(Settle(L3, m, Opposite(outcome), Lose, |L3.positions|))
  }

  /** Cancels an open market: every order resting on its book is cancelled
      and refunded, and every position on it, on either side, is refunded its
      cost. Shares, realized P&L and the market's prices stay. */
  function CancelMarket(L: Ledger, m: MarketId): (r: Result<Ledger>)
    ensures r == Err(MarketNotFound) <==> m >= |L.markets|
    ensures r == Err(MarketNotOpen) <==> Closed(L, m)
    ensures r.Ok? ==>
              && TradingOpen(L, m)
              && |r.value.markets| == |L.markets|
              && (forall k :: 0 <= k < |L.markets| && k != m ==> r.value.markets[k] == L.markets[k])
              && r.value.markets[m] == L.markets[m].(status := MarketCancelled)
              && r.value.trades == L.trades
  {
    if m >= |L.markets| then Err(MarketNotFound)
    else if L.markets[m].status != MarketOpen then Err(MarketNotOpen)
    else
      var L1 := L.(markets := L.markets[m := L.markets[m].(status := MarketCancelled)]);
      var L2 := CancelResting(L1, m, |L1.orders|);
      Ok(Settle(L2, m, Yes, Void, |L2.positions|))
  }

  /** Resolution keeps the ledger valid, and the only value it adds is the
      payout: one payoff for every share held on the winning side. */
  lemma ResolveMarketValid(L: Ledger, m: MarketId, outcome: Side)
    requires Valid(L)
    ensures var r := ResolveMarket(L, m, outcome);
            r.Ok? ==>
              && Valid(r.value)
              && Total(r.value) == Total(L) + Sum(L.positions, Paid(m, outcome, Win))
  {
    if TradingOpen(L, m) {
      var mk := L.markets[m];
      var L1 := L.(markets := L.markets[m := mk.(status := ResolvedStatus(outcome),
                                                 yesPrice := if outcome == Yes then Payoff else 0,
                                                 noPrice := if outcome == Yes then 0 else Payoff)]);
      assert MarketWF(L1.markets[m]);
      assert Valid(L1) && Total(L1) == Total(L);
      var L2 := CancelResting(L1, m, |L1.orders|);
      CancelRestingEffect(L1, m, |L1.orders|);
      var L3 := Settle(L2, m, outcome, Win, |L2.positions|);
      SettleValid(L2, m, outcome, Win, |L2.positions|);
      assert L2.positions[..|L2.positions|] == L.positions;
      SettleValid(L3, m, Opposite(outcome), Lose, |L3.positions|);
      assert L3.positions[..|L3.positions|] == L3.positions;
      LosersPaidNothing(L3.positions, m, Opposite(outcome), 0);
    }
  }

  /** Resolution cancels exactly the orders resting on the market's book;
      every other order stays as it was. */
  lemma ResolveMarketOrders(L: Ledger, m: MarketId, outcome: Side)
    requires Valid(L)
    ensures var r := ResolveMarket(L, m, outcome);
            r.Ok? ==>
              && |r.value.orders| == |L.orders|
              && (forall k :: 0 <= k < |L.orders| ==>
                    r.value.orders[k] == if Swept(L.orders[k], m) then L.orders[k].(status := Cancelled) else L.orders[k])
              && (forall k :: 0 <= k < |L.orders| && L.orders[k].market == m ==> !Resting(r.value.orders[k]))
  {
    if TradingOpen(L, m) {
      var mk := L.markets[m];
      var L1 := L.(markets := L.markets[m := mk.(status := ResolvedStatus(outcome),
                                                 yesPrice := if outcome == Yes then Payoff else 0,
                                                 noPrice := if outcome == Yes then 0 else Payoff)]);
      assert MarketWF(L1.markets[m]);
      assert Valid(L1);
      CancelRestingEffect(L1, m, |L1.orders|);
    }
  }

  /** Resolution books P&L on the market's positions with shares and touches
      nothing else in them: a winner gains the payoff less its cost, a loser
      loses its cost, exactly in whole cents; shares, average price and
      every other position stay. */
  lemma ResolveMarketPositions(L: Ledger, m: MarketId, outcome: Side)
    requires Valid(L)
    ensures var r := ResolveMarket(L, m, outcome);
            r.Ok? ==>
              && |r.value.positions| == |L.positions|
              && forall j :: 0 <= j < |L.positions| ==>
                   var p, p' := L.positions[j], r.value.positions[j];
                   && p' == p.(realizedPnl := p'.realizedPnl)
                   && p'.realizedPnl as real ==
                        p.realizedPnl as real +
                        (if p.market != m || p.shares == 0 then 0.0
                         else if p.side == outcome then (Payoff * p.shares) as real - CostBasis(p)
                         else - CostBasis(p))
  {
    if TradingOpen(L, m) {
      var mk := L.markets[m];
      var L1 := L.(markets := L.markets[m := mk.(status := ResolvedStatus(outcome),
                                                 yesPrice := if outcome == Yes then Payoff else 0,
                                                 noPrice := if outcome == Yes then 0 else Payoff)]);
      assert MarketWF(L1.markets[m]);
      assert Valid(L1);
      var L2 := CancelResting(L1, m, |L1.orders|);
      CancelRestingEffect(L1, m, |L1.orders|);
      var L3 := Settle(L2, m, outcome, Win, |L2.positions|);
      SettlePositions(L2, m, outcome, Win, |L2.positions|);
      var L4 := Settle(L3, m, Opposite(outcome), Lose, |L3.positions|);
      SettlePositions(L3, m, Opposite(outcome), Lose, |L3.positions|);
      forall j | 0 <= j < |L.positions|
        ensures var p, p' := L.positions[j], L4.positions[j];
                && p' == p.(realizedPnl := p'.realizedPnl)
                && p'.realizedPnl as real ==
                     p.realizedPnl as real +
                     (if p.market != m || p.shares == 0 then 0.0
                      else if p.side == outcome then (Payoff * p.shares) as real - CostBasis(p)
                      else - CostBasis(p))
      {
        var p := L.positions[j];
        assert L2.positions[j] == p;
        assert PositionWF(p, |L.users|, |L.markets|);
        if p.market == m && p.shares > 0 {
          BookedExactly(p, |L.users|, |L.markets|);
          if p.side == outcome {
            assert L3.positions[j] == p.(realizedPnl := p.realizedPnl + Booked(Win, p));
            assert !Settles(L3.positions[j], m, Opposite(outcome), Lose);
          } else {
            assert L3.positions[j] == p;
            assert p.side == Opposite(outcome);
          }
        }
      }
    }
  }

  /** Resolution pays each user the unfilled notional of its resting orders
      on the market and one payoff for every share it holds on the winning
      side; losers receive nothing. */
  lemma ResolveMarketBalances(L: Ledger, m: MarketId, outcome: Side)
    requires Valid(L)
    ensures var r := ResolveMarket(L, m, outcome);
            r.Ok? ==>
              && |r.value.users| == |L.users|
              && forall v :: 0 <= v < |L.users| ==>
                   r.value.users[v].balance as real ==
                     L.users[v].balance as real + Sum(L.orders, Refundable(m, v)) +
                     Payoff as real * Sum(L.positions, HeldShares(v, m, outcome))
  {
    if TradingOpen(L, m) {
      var mk := L.markets[m];
      var L1 := L.(markets := L.markets[m := mk.(status := ResolvedStatus(outcome),
                                                 yesPrice := if outcome == Yes then Payoff else 0,
                                                 noPrice := if outcome == Yes then 0 else Payoff)]);
      assert MarketWF(L1.markets[m]);
      assert Valid(L1);
      var L2 := CancelResting(L1, m, |L1.orders|);
      CancelRestingEffect(L1, m, |L1.orders|);
      assert L1.orders[..|L1.orders|] == L.orders;
      var L3 := Settle(L2, m, outcome, Win, |L2.positions|);
      SettleBalances(L2, m, outcome, Win, |L2.positions|);
      assert L2.positions[..|L2.positions|] == L.positions;
      var L4 := Settle(L3, m, Opposite(outcome), Lose, |L3.positions|);
      SettleBalances(L3, m, Opposite(outcome), Lose, |L3.positions|);
      assert L3.positions[..|L3.positions|] == L3.positions;
      forall v | 0 <= v < |L.users|
        ensures L4.users[v].balance as real ==
                  L.users[v].balance as real + Sum(L.orders, Refundable(m, v)) +
                  Payoff as real * Sum(L.positions, HeldShares(v, m, outcome))
      {
        LosersPaidNothing(L3.positions, m, Opposite(outcome), v);
        assert forall k :: 0 <= k < |L.positions| ==> L.positions[k].shares >= 0 by {
          forall k | 0 <= k < |L.positions| ensures L.positions[k].shares >= 0 {
            assert PositionWF(L.positions[k], |L.users|, |L.markets|);
          }
        }
        WinnersPaidPerShare(L.positions, m, outcome, v);
      }
    }
  }

  /** Cancelling a market keeps the ledger valid, and the only value it adds
      is the refund of every position on the market at cost. */
  lemma CancelMarketValid(L: Ledger, m: MarketId)
    requires Valid(L)
    ensures var r := CancelMarket(L, m);
            r.Ok? ==>
              && Valid(r.value)
              && Total(r.value) == Total(L) + Sum(L.positions, AllMarketCost(m))
  {
    if TradingOpen(L, m) {
      var L1 := L.(markets := L.markets[m := L.markets[m].(status := MarketCancelled)]);
      assert MarketWF(L1.markets[m]);
      assert Valid(L1) && Total(L1) == Total(L);
      var L2 := CancelResting(L1, m, |L1.orders|);
      CancelRestingEffect(L1, m, |L1.orders|);
      SettleValid(L2, m, Yes, Void, |L2.positions|);
      assert L2.positions[..|L2.positions|] == L.positions;
      RefundsAtCost(L.positions, m, Yes, 0, |L.users|, |L.markets|);
    }
  }

  /** Cancelling a market cancels exactly the orders resting on its book and
      leaves every position as it was. */
  lemma CancelMarketEffect(L: Ledger, m: MarketId)
    requires Valid(L)
    ensures var r := CancelMarket(L, m);
            r.Ok? ==>
              && r.value.positions == L.positions
              && |r.value.orders| == |L.orders|
              && (forall k :: 0 <= k < |L.orders| ==>
                    r.value.orders[k] == if Swept(L.orders[k], m) then L.orders[k].(status := Cancelled) else L.orders[k])
  {
    if TradingOpen(L, m) {
      var L1 := L.(markets := L.markets[m := L.markets[m].(status := MarketCancelled)]);
      assert MarketWF(L1.markets[m]);
      assert Valid(L1);
      var L2 := CancelResting(L1, m, |L1.orders|);
      CancelRestingEffect(L1, m, |L1.orders|);
      SettlePositions(L2, m, Yes, Void, |L2.positions|);
    }
  }

  /** Cancelling a market pays each user the unfilled notional of its
      resting orders on the market and the cost of its positions there, on
      both sides. */
  lemma CancelMarketBalances(L: Ledger, m: MarketId)
    requires Valid(L)
    ensures var r := CancelMarket(L, m);
            r.Ok? ==>
              && |r.value.users| == |L.users|
              && forall v :: 0 <= v < |L.users| ==>
                   r.value.users[v].balance as real ==
                     L.users[v].balance as real + Sum(L.orders, Refundable(m, v)) + Sum(L.positions, MarketCost(m, v))
  {
    if TradingOpen(L, m) {
      var L1 := L.(markets := L.markets[m := L.markets[m].(status := MarketCancelled)]);
      assert MarketWF(L1.markets[m]);
      assert Valid(L1);
      var L2 := CancelResting(L1, m, |L1.orders|);
      CancelRestingEffect(L1, m, |L1.orders|);
      assert L1.orders[..|L1.orders|] == L.orders;
      var L3 := Settle(L2, m, Yes, Void, |L2.positions|);
      SettleBalances(L2, m, Yes, Void, |L2.positions|);
      assert L2.positions[..|L2.positions|] == L.positions;
      forall v | 0 <= v < |L.users|
        ensures L3.users[v].balance as real ==
                  L.users[v].balance as real + Sum(L.orders, Refundable(m, v)) + Sum(L.positions, MarketCost(m, v))
      {
        RefundsAtCost(L.positions, m, Yes, v, |L.users|, |L.markets|);
      }
    }
  }

  /** Resolved and cancelled markets are terminal: a closed market cannot be
      resolved or cancelled again, and every order placed on it is refused,
      as not open for trading once its price and quantity pass. Resolving or
      cancelling a market closes it. */
  lemma ClosedMarketIsTerminal(L: Ledger, m: MarketId, outcome: Side,
                               u: UserId, side: Side, kind: OrderType, price: int, quantity: real)
    ensures ResolveMarket(L, m, outcome).Ok? ==> Closed(ResolveMarket(L, m, outcome).value, m)
    ensures CancelMarket(L, m).Ok? ==> Closed(CancelMarket(L, m).value, m)
    ensures Closed(L, m) ==>
              && ResolveMarket(L, m, outcome) == Err(MarketNotOpen)
              && CancelMarket(L, m) == Err(MarketNotOpen)
              && PlaceOrder(L, u, m, side, kind, price, quantity).Err?
              && (ValidPrice(price) && PositiveInteger(quantity) ==>
                    PlaceOrder(L, u, m, side, kind, price, quantity) == Err(MarketNotOpenForTrading))
  {
  }
}
