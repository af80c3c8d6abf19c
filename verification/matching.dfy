/** Matching an incoming order against the resting orders of the opposite
    outcome of a binary market: the complementary-price rule (a yes quote and
    a no quote cross when they sum to at least one payoff), price-time
    priority over a snapshot of the book, the execution price and price
    improvement of each fill, and what one fill does to orders, balances,
    positions and the market. */
module Matching {
  import opened Sums
  import opened Types
  import opened Mutator
  import opened Priority

  function Min(a: int, b: int): int
  {
    if a <= b then a else b
  }

  /** A quantity the engine accepts: a positive whole number. */
  predicate PositiveInteger(x: real)
  {
    x > 0.0 && x.Floor as real == x
  }

  predicate TradingOpen(L: Ledger, m: MarketId)
  {
    m < |L.markets| && L.markets[m].status == MarketOpen
  }

  /** Resting order o may trade with incoming order i: it rests on the other
      outcome of the same market and its price and i's sum to at least one
      payoff. */
  predicate Eligible(i: Order, o: Order)
  {
    Queued(o, i.market, Opposite(i.side), Payoff - i.price)
  }

  /** The snapshot of resting orders an incoming order is matched against, in
      price-time priority. */
  function Candidates(L: Ledger, inc: OrderId): (cs: seq<OrderId>)
    requires inc < |L.orders|
    ensures Sorted(L.orders, cs)
    ensures forall id: nat :: id in cs <==> id < |L.orders| && Eligible(L.orders[inc], L.orders[id])
    ensures forall a :: 0 <= a < |cs| ==> cs[a] < |L.orders|
  {
    var i := L.orders[inc];
    var q := Queue(L.orders, i.market, Opposite(i.side), Payoff - i.price, |L.orders|);
    MembersInRange(q, |L.orders|);
    q
  }

  /** The yes-equivalent price a fill prints at. A yes aggressor trades at the
      complement of the resting no price, a no aggressor at the complement of
      its own price. Either way the print is a valid price, does not exceed the
      yes side's quote, and its complement does not exceed the no side's quote. */
  function ExecutionPrice(i: Order, o: Order): (p: int)
    ensures ValidPrice(i.price) && ValidPrice(o.price) ==> ValidPrice(p)
    ensures Eligible(i, o) && i.side == Yes ==> p <= i.price && Payoff - p <= o.price
    ensures Eligible(i, o) && i.side == No ==> p <= o.price && Payoff - p <= i.price
  {
    if i.side == Yes then Payoff - o.price else Payoff - i.price
  }

  /** A yes price expressed in the terms of one side. */
  function SidePrice(side: Side, yesPrice: int): int
  {
    if side == Yes then yesPrice else Payoff - yesPrice
  }

  /** The per-share refund owed to the incoming order for executing below its
      own quote. It is the overlap of the two quotes for a yes aggressor and
      always zero for a no aggressor. */
  function Improvement(i: Order, o: Order): (g: int)
    ensures Eligible(i, o) ==> g >= 0
    ensures i.side == Yes ==> g == i.price + o.price - Payoff
    ensures i.side == No ==> g == 0
  {
    i.price - SidePrice(i.side, ExecutionPrice(i, o))
  }

  /** What the two parties' positions cost together per share, beyond the
      payoff: nothing when a yes order aggresses, the overlap of the quotes
      when a no order aggresses (the resting yes buyer keeps its quote). */
  function Surplus(i: Order, o: Order): int
  {
    if i.side == No then i.price + o.price - Payoff else 0
  }

  /** One ledger update the engine issues while matching. */
  datatype Step =
    | RecordTrade(trade: Trade)
    | AddFilled(id: OrderId, amount: int)
    | Refund(user: UserId, credit: int)
    | Acquire(holder: UserId, market: MarketId, side: Side, shares: int, price: int)
    | PrintTrade(market: MarketId, price: int, amount: int)

  function Apply(L: Ledger, s: Step): (L': Ledger)
    ensures |L'.users| == |L.users| && |L'.markets| == |L.markets| && |L'.orders| == |L.orders|
  {
    match s
    case RecordTrade(t) => L.(trades := L.trades + [t])
    case AddFilled(id, q) => if id < |L.orders| then AddFill(L, id, q) else L
    case Refund(u, amount) => Credit(L, u, amount)
    case Acquire(u, m, side, q, price) => UpdatePosition(L, u, m, side, q, price)
    case PrintTrade(m, price, q) => RecordPrint(L, m, price, q)
  }

  /** Applies a sequence of updates in order. */
  function Run(L: Ledger, ss: seq<Step>): (L': Ledger)
    ensures |L'.users| == |L.users| && |L'.markets| == |L.markets| && |L'.orders| == |L.orders|
    decreases |ss|
  {
    if |ss| == 0 then L else Run(Apply(L, ss[0]), ss[1..])
  }

  lemma {:induction false} RunAppend(L: Ledger, a: seq<Step>, b: seq<Step>)
    ensures Run(L, a + b) == Run(Run(L, a), b)
    decreases |a|
  {
    if |a| > 0 {
      assert (a + b)[1..] == a[1..] + b;
      RunAppend(Apply(L, a[0]), a[1..], b);
    } else {
      assert a + b == b;
    }
  }

  lemma RunCons(L: Ledger, s: Step, ss: seq<Step>)
    ensures Run(L, [s] + ss) == Run(Apply(L, s), ss)
  {
    assert ([s] + ss)[1..] == ss;
  }

  lemma RunOne(L: Ledger, s: Step)
    ensures Run(L, [s]) == Apply(L, s)
  {
    assert [s][1..] == [];
  }

  /** The updates of one fill of q shares between the incoming order inc and
      the resting order r: record the trade, add the fill to both orders,
      refund the incoming user's price improvement when there is one, update
      both positions (the incoming one at its own-side execution price, the
      resting one at its quote) and print the trade on the market. */
  function FillSteps(L: Ledger, inc: OrderId, r: OrderId, q: int): seq<Step>
    requires inc < |L.orders| && r < |L.orders|
  {
    var i, o := L.orders[inc], L.orders[r];
    var price := ExecutionPrice(i, o);
    var gain := Improvement(i, o);
    [RecordTrade(Trade(i.market, inc, r, price, q)), AddFilled(inc, q), AddFilled(r, q)]
    + (if gain > 0 then [Refund(i.user, gain * q)] else [])
    + [Acquire(i.user, i.market, i.side, q, SidePrice(i.side, price)),
       Acquire(o.user, o.market, o.side, q, o.price),
       PrintTrade(i.market, price, q)]
  }

  /** One fill: the ledger after its updates, and the trade it records. */
  function Fill(L: Ledger, inc: OrderId, r: OrderId, q: int): (res: (Ledger, Trade))
    requires inc < |L.orders| && r < |L.orders|
    ensures |res.0.users| == |L.users| && |res.0.markets| == |L.markets| && |res.0.orders| == |L.orders|
  {
    var i, o := L.orders[inc], L.orders[r];
    (Run(L, FillSteps(L, inc, r, q)), Trade(i.market, inc, r, ExecutionPrice(i, o), q))
  }

  /** The requirements under which the engine performs a fill: a valid
      ledger, an open market, a resting incoming order, an eligible resting
      order of the opposite side and a fill no larger than either's unfilled
      quantity. */
  ghost predicate Fillable(L: Ledger, inc: OrderId, r: OrderId, q: int)
  {
    && Valid(L)
    && inc < |L.orders| && r < |L.orders| && inc != r
    && TradingOpen(L, L.orders[inc].market)
    && Resting(L.orders[inc]) && Eligible(L.orders[inc], L.orders[r])
    && 0 < q <= Unfilled(L.orders[inc]) && q <= Unfilled(L.orders[r])
  }

  /** A fill records one trade of q at the execution price between the two
      orders, adds q to both orders' fill counts (recomputing their status),
      leaves every other order alone, and prints the trade on the market. */
  lemma FillRecords(L: Ledger, inc: OrderId, r: OrderId, q: int)
    requires inc < |L.orders| && r < |L.orders| && inc != r
    requires L.orders[inc].market < |L.markets|
    ensures var L', t := Fill(L, inc, r, q).0, Fill(L, inc, r, q).1;
            var i, o := L.orders[inc], L.orders[r];
            && |L'.users| == |L.users| && |L'.markets| == |L.markets|
            && t == Trade(i.market, inc, r, ExecutionPrice(i, o), q)
            && L'.trades == L.trades + [t]
            && L'.orders[inc] == i.(filled := i.filled + q, status := StatusFor(i.filled + q, i.quantity))
            && L'.orders[r] == o.(filled := o.filled + q, status := StatusFor(o.filled + q, o.quantity))
            && (forall k :: 0 <= k < |L.orders| && k != inc && k != r ==> L'.orders[k] == L.orders[k])
            && L'.markets[i.market] ==
               L.markets[i.market].(yesPrice := t.price, noPrice := Payoff - t.price,
                                    volume := L.markets[i.market].volume + t.price * q)
            && (forall k :: 0 <= k < |L.markets| && k != i.market ==> L'.markets[k] == L.markets[k])
  {
    var i, o := L.orders[inc], L.orders[r];
    var price := ExecutionPrice(i, o);
    var L0 := L.(trades := L.trades + [Trade(i.market, inc, r, price, q)]);
    var L1 := FillBooked(L, inc, r, q);
    assert L1 == AddFill(AddFill(L0, inc, q), r, q);
    var L2 := FillRefunded(L, inc, r, q);
    assert L2.orders == L1.orders && L2.markets == L.markets && L2.trades == L0.trades && |L2.users| == |L.users|;
    var L3 := UpdatePosition(L2, i.user, i.market, i.side, q, SidePrice(i.side, price));
    var L4 := UpdatePosition(L3, o.user, o.market, o.side, q, o.price);
    assert L4.orders == L1.orders && L4.markets == L.markets && L4.trades == L0.trades && |L4.users| == |L.users|;
    FillStages(L, inc, r, q);
  }

  /** What one fill does to the trade log alone. */
  lemma FillTrades(L: Ledger, inc: OrderId, r: OrderId, q: int)
    requires inc < |L.orders| && r < |L.orders| && inc != r
    requires L.orders[inc].market < |L.markets|
    ensures Fill(L, inc, r, q).0.trades == L.trades + [Fill(L, inc, r, q).1]
  {
    FillRecords(L, inc, r, q);
  }

  /** What one fill does to the orders alone. */
  lemma FillOrders(L: Ledger, inc: OrderId, r: OrderId, q: int)
    requires inc < |L.orders| && r < |L.orders| && inc != r
    requires L.orders[inc].market < |L.markets|
    ensures var L1, o := Fill(L, inc, r, q).0, L.orders[r];
            && |L1.orders| == |L.orders|
            && L1.orders[inc] == L.orders[inc].(filled := L1.orders[inc].filled, status := L1.orders[inc].status)
            && L1.orders[r] == o.(filled := o.filled + q, status := StatusFor(o.filled + q, o.quantity))
            && (forall k :: 0 <= k < |L.orders| && k != inc && k != r ==> L1.orders[k] == L.orders[k])
  {
    FillRecords(L, inc, r, q);
  }

  /** The stages of a fill, named so that the lemmas below can speak of them. */
  function FillBooked(L: Ledger, inc: OrderId, r: OrderId, q: int): (L1: Ledger)
    requires inc < |L.orders| && r < |L.orders|
    ensures |L1.orders| == |L.orders|
  {
    var i, o := L.orders[inc], L.orders[r];
    AddFill(AddFill(L.(trades := L.trades + [Trade(i.market, inc, r, ExecutionPrice(i, o), q)]), inc, q), r, q)
  }

  function FillRefunded(L: Ledger, inc: OrderId, r: OrderId, q: int): (L2: Ledger)
    requires inc < |L.orders| && r < |L.orders|
    ensures |L2.orders| == |L.orders|
  {
    var i, o := L.orders[inc], L.orders[r];
    var L1 := FillBooked(L, inc, r, q);
    var gain := Improvement(i, o);
    if gain > 0 then Credit(L1, i.user, gain * q) else L1
  }

  lemma FillStages(L: Ledger, inc: OrderId, r: OrderId, q: int)
    requires inc < |L.orders| && r < |L.orders|
    ensures var i, o := L.orders[inc], L.orders[r];
            var price := ExecutionPrice(i, o);
            var L3 := UpdatePosition(FillRefunded(L, inc, r, q), i.user, i.market, i.side, q, SidePrice(i.side, price));
            var L4 := UpdatePosition(L3, o.user, o.market, o.side, q, o.price);
            Fill(L, inc, r, q) == (RecordPrint(L4, i.market, price, q), Trade(i.market, inc, r, price, q))
  {
    var i, o := L.orders[inc], L.orders[r];
    var price := ExecutionPrice(i, o);
    var gain := Improvement(i, o);
    var t := Trade(i.market, inc, r, price, q);
    var head := [RecordTrade(t), AddFilled(inc, q), AddFilled(r, q)];
    var refund: seq<Step> := if gain > 0 then [Refund(i.user, gain * q)] else [];
    var a := Acquire(i.user, i.market, i.side, q, SidePrice(i.side, price));
    var b := Acquire(o.user, o.market, o.side, q, o.price);
    var c := PrintTrade(i.market, price, q);
    var tail := [a, b, c];
    assert FillSteps(L, inc, r, q) == head + refund + tail;
    RunAppend(L, head + refund, tail);
    RunAppend(L, head, refund);
    RunBooked(L, inc, r, q);
    var L1 := FillBooked(L, inc, r, q);
    if gain > 0 {
      RunOne(L1, Refund(i.user, gain * q));
    }
    assert Run(L1, refund) == FillRefunded(L, inc, r, q);
    var L2 := FillRefunded(L, inc, r, q);
    RunTail(L2, a, b, c);
    var L3 := UpdatePosition(L2, i.user, i.market, i.side, q, SidePrice(i.side, price));
    assert Apply(L2, a) == L3;
    assert Apply(L3, b) == UpdatePosition(L3, o.user, o.market, o.side, q, o.price);
  }

  /** Recording the trade and the two fill counts is the booking stage. */
  lemma RunBooked(L: Ledger, inc: OrderId, r: OrderId, q: int)
    requires inc < |L.orders| && r < |L.orders|
    ensures var i, o := L.orders[inc], L.orders[r];
            var t := Trade(i.market, inc, r, ExecutionPrice(i, o), q);
            Run(L, [RecordTrade(t), AddFilled(inc, q), AddFilled(r, q)]) == FillBooked(L, inc, r, q)
  {
    var i, o := L.orders[inc], L.orders[r];
    var t := Trade(i.market, inc, r, ExecutionPrice(i, o), q);
    RunTail(L, RecordTrade(t), AddFilled(inc, q), AddFilled(r, q));
    var L0 := L.(trades := L.trades + [t]);
    assert Apply(L, RecordTrade(t)) == L0;
    assert Apply(L0, AddFilled(inc, q)) == AddFill(L0, inc, q);
    assert Apply(AddFill(L0, inc, q), AddFilled(r, q)) == AddFill(AddFill(L0, inc, q), r, q);
  }

  /** Three updates run one after the other. */
  lemma RunTail(L: Ledger, a: Step, b: Step, c: Step)
    ensures Run(L, [a, b, c]) == Apply(Apply(Apply(L, a), b), c)
  {
    RunCons(L, a, [b, c]);
    RunCons(Apply(L, a), b, [c]);
    RunOne(Apply(Apply(L, a), b), c);
    assert [a, b, c] == [a] + ([b] + [c]);
  }

  /** Booking and refunding keep the ledger valid; the reserved notional of
      both orders drops by price * q each and the incoming user alone is
      credited the improvement. */
  lemma FillRefundedEffect(L: Ledger, inc: OrderId, r: OrderId, q: int)
    requires Fillable(L, inc, r, q)
    ensures var L2 := FillRefunded(L, inc, r, q);
            var i, o := L.orders[inc], L.orders[r];
            && Valid(L2)
            && L2.positions == L.positions
            && L2.markets == L.markets
            && |L2.users| == |L.users|
            && L2.orders[inc].market == i.market
            && Sum(L2.users, Funds) == Sum(L.users, Funds) + (Improvement(i, o) * q) as real
            && Sum(L2.orders, Reserved) == Sum(L.orders, Reserved) - (i.price * q) as real - (o.price * q) as real
            && (forall v :: 0 <= v < |L.users| ==>
                  L2.users[v].balance == L.users[v].balance + (if v == i.user then Improvement(i, o) * q else 0))
  {
    var i, o := L.orders[inc], L.orders[r];
    FillBookedEffect(L, inc, r, q);
    var L1 := FillBooked(L, inc, r, q);
    var gain := Improvement(i, o);
    assert OrderWF(i, |L.users|, |L.markets|);
    RefundEffect(L1, i.user, gain, q);
  }

  /** Crediting a refund of gain per share for q shares when gain is positive. */
  lemma RefundEffect(L: Ledger, u: UserId, gain: int, q: int)
    requires Valid(L) && u < |L.users| && gain >= 0 && q > 0
    ensures var L' := if gain > 0 then Credit(L, u, gain * q) else L;
            && Valid(L')
            && L'.orders == L.orders && L'.positions == L.positions && L'.markets == L.markets
            && |L'.users| == |L.users|
            && Sum(L'.users, Funds) == Sum(L.users, Funds) + (gain * q) as real
            && (forall v :: 0 <= v < |L.users| ==>
                  L'.users[v].balance == L.users[v].balance + (if v == u then gain * q else 0))
  {
    if gain > 0 {
      assert gain * q > 0;
      CreditValid(L, u, gain * q);
    } else {
      assert gain * q == 0;
    }
  }

  /** Recording the trade and adding the fill to both orders keeps the
      ledger valid and releases both orders' reservations for the fill. */
  lemma FillBookedEffect(L: Ledger, inc: OrderId, r: OrderId, q: int)
    requires Fillable(L, inc, r, q)
    ensures var L1 := FillBooked(L, inc, r, q);
            var i, o := L.orders[inc], L.orders[r];
            && Valid(L1)
            && L1.users == L.users && L1.positions == L.positions && L1.markets == L.markets
            && L1.orders[inc].market == i.market
            && Sum(L1.orders, Reserved) == Sum(L.orders, Reserved) - (i.price * q) as real - (o.price * q) as real
  {
    var i, o := L.orders[inc], L.orders[r];
    var t := Trade(i.market, inc, r, ExecutionPrice(i, o), q);
    var L0 := L.(trades := L.trades + [t]);
    assert TradeWF(t, |L.markets|, |L.orders|);
    assert Valid(L0);
    var La := AddFill(L0, inc, q);
    AddFillValid(L0, inc, q);
    assert La.orders[r] == o;
    AddFillValid(La, r, q);
  }

  /** The positions after a fill cost what they cost before plus the
      incoming side's price and the resting quote, per share filled. */
  lemma FillCost(L: Ledger, inc: OrderId, r: OrderId, q: int)
    requires Fillable(L, inc, r, q)
    ensures var L' := Fill(L, inc, r, q).0;
            var i, o := L.orders[inc], L.orders[r];
            && Valid(L')
            && L'.users == FillRefunded(L, inc, r, q).users
            && L'.orders == FillRefunded(L, inc, r, q).orders
            && Sum(L'.positions, CostBasis) ==
               Sum(L.positions, CostBasis) + (SidePrice(i.side, ExecutionPrice(i, o)) * q) as real + (o.price * q) as real
  {
    var i, o := L.orders[inc], L.orders[r];
    var price := ExecutionPrice(i, o);
    var own := SidePrice(i.side, price);
    var L2 := FillRefunded(L, inc, r, q);
    FillRefundedEffect(L, inc, r, q);
    var L3 := UpdatePosition(L2, i.user, i.market, i.side, q, own);
    UpdatePositionEffect(L2, i.user, i.market, i.side, q, own);
    var L4 := UpdatePosition(L3, o.user, o.market, o.side, q, o.price);
    UpdatePositionEffect(L3, o.user, o.market, o.side, q, o.price);
    RecordPrintValid(L4, i.market, price, q);
    FillStages(L, inc, r, q);
  }

  /** A fill keeps the ledger valid. */
  lemma FillValid(L: Ledger, inc: OrderId, r: OrderId, q: int)
    requires Fillable(L, inc, r, q)
    ensures Valid(Fill(L, inc, r, q).0)
  {
    FillCost(L, inc, r, q);
  }

  /** A fill keeps the ledger's total value. */
  lemma FillConserves(L: Ledger, inc: OrderId, r: OrderId, q: int)
    requires Fillable(L, inc, r, q)
    ensures Total(Fill(L, inc, r, q).0) == Total(L)
  {
    FillFunds(L, inc, r, q);
  }

  /** A fill moves no cash but the incoming user's improvement refund. */
  lemma FillBalances(L: Ledger, inc: OrderId, r: OrderId, q: int)
    requires Fillable(L, inc, r, q)
    ensures var L' := Fill(L, inc, r, q).0;
            var i, o := L.orders[inc], L.orders[r];
            forall v :: 0 <= v < |L.users| ==>
              L'.users[v].balance == L.users[v].balance + (if v == i.user then Improvement(i, o) * q else 0)
  {
    FillFunds(L, inc, r, q);
  }

  /** The money of a fill: the ledger stays valid and keeps its total value,
      the incoming user alone is refunded the improvement, and the positions'
      total cost grows by one payoff per share plus the surplus. */
  lemma FillFunds(L: Ledger, inc: OrderId, r: OrderId, q: int)
    requires Fillable(L, inc, r, q)
    ensures var L', t := Fill(L, inc, r, q).0, Fill(L, inc, r, q).1;
            var i, o := L.orders[inc], L.orders[r];
            && Valid(L')
            && Total(L') == Total(L)
            && (forall v :: 0 <= v < |L.users| ==>
                  L'.users[v].balance == L.users[v].balance + (if v == i.user then Improvement(i, o) * q else 0))
            && Sum(L'.positions, CostBasis) ==
               Sum(L.positions, CostBasis) + ((Payoff + Surplus(i, o)) * q) as real
  {
    var i, o := L.orders[inc], L.orders[r];
    var own := SidePrice(i.side, ExecutionPrice(i, o));
    FillRefundedEffect(L, inc, r, q);
    FillCost(L, inc, r, q);
    FillArithmetic(Improvement(i, o), i.price, o.price, own, Surplus(i, o), q);
  }

  /** The per-fill cash identity: refund minus both reservations plus both
      position costs is zero, and the two costs are one payoff plus the
      surplus per share. */
  lemma FillArithmetic(gain: int, pi: int, pr: int, own: int, surplus: int, q: int)
    requires gain == pi - own && own + pr == Payoff + surplus
    ensures (gain * q) as real - (pi * q) as real - (pr * q) as real + (own * q) as real + (pr * q) as real == 0.0
    ensures (own * q) as real + (pr * q) as real == ((Payoff + surplus) * q) as real
  {
    assert gain * q == pi * q - own * q;
    assert (own + pr) * q == own * q + pr * q;
  }

  /** The holdings of a fill: each party's holding on its own side grows by
      the fill, the incoming one costed at its own-side execution price and
      the resting one at its quoted price. */
  lemma FillHoldings(L: Ledger, inc: OrderId, r: OrderId, q: int)
    requires Fillable(L, inc, r, q)
    ensures var L', t := Fill(L, inc, r, q).0, Fill(L, inc, r, q).1;
            var i, o := L.orders[inc], L.orders[r];
            && Sum(L'.positions, HeldShares(i.user, i.market, i.side)) ==
               Sum(L.positions, HeldShares(i.user, i.market, i.side)) + q as real
            && Sum(L'.positions, HeldCost(i.user, i.market, i.side)) ==
               Sum(L.positions, HeldCost(i.user, i.market, i.side)) + (SidePrice(i.side, t.price) * q) as real
            && Sum(L'.positions, HeldShares(o.user, o.market, o.side)) ==
               Sum(L.positions, HeldShares(o.user, o.market, o.side)) + q as real
            && Sum(L'.positions, HeldCost(o.user, o.market, o.side)) ==
               Sum(L.positions, HeldCost(o.user, o.market, o.side)) + (o.price * q) as real
  {
    var i, o := L.orders[inc], L.orders[r];
    var price := ExecutionPrice(i, o);
    var own := SidePrice(i.side, price);
    var L2 := FillRefunded(L, inc, r, q);
    FillRefundedEffect(L, inc, r, q);
    var L3 := UpdatePosition(L2, i.user, i.market, i.side, q, own);
    UpdatePositionEffect(L2, i.user, i.market, i.side, q, own);
    UpdatePositionHeld(L2, i.user, i.market, i.side, q, own, i.user, i.market, i.side);
    UpdatePositionHeld(L2, i.user, i.market, i.side, q, own, o.user, o.market, o.side);
    UpdatePositionHeld(L3, o.user, o.market, o.side, q, o.price, i.user, i.market, i.side);
    UpdatePositionHeld(L3, o.user, o.market, o.side, q, o.price, o.user, o.market, o.side);
    FillStages(L, inc, r, q);
  }

  /** What the matching loop may rely on for the part of its snapshot not yet
      visited: distinct ids of eligible resting orders other than the
      incoming one, whose unfilled quantity is tracked by `remaining`, on a
      market that is open. */
  ghost predicate Snapshot(L: Ledger, inc: OrderId, cands: seq<OrderId>, remaining: int)
  {
    && inc < |L.orders|
    && L.orders[inc].status != Cancelled
    && remaining == Unfilled(L.orders[inc])
    && TradingOpen(L, L.orders[inc].market)
    && (forall a :: 0 <= a < |cands| ==>
          cands[a] < |L.orders| && cands[a] != inc && Eligible(L.orders[inc], L.orders[cands[a]]))
    && (forall a, b :: 0 <= a < b < |cands| ==> cands[a] != cands[b])
  }

  /** The matching loop over the snapshot: stop once the incoming order is
      filled, skip the incoming user's own resting orders without consuming
      them, otherwise fill min(remaining, resting unfilled). */
  function MatchLoop(L: Ledger, inc: OrderId, cands: seq<OrderId>, remaining: int): (res: (Ledger, seq<Trade>))
    requires inc < |L.orders|
    requires forall a :: 0 <= a < |cands| ==> cands[a] < |L.orders|
    ensures |res.0.users| == |L.users| && |res.0.markets| == |L.markets| && |res.0.orders| == |L.orders|
    decreases |cands|
  {
    if |cands| == 0 || remaining <= 0 then (L, [])
    else
      var r := cands[0];
      if L.orders[r].user == L.orders[inc].user then
        MatchLoop(L, inc, cands[1..], remaining)
      else
        var q := Min(remaining, Unfilled(L.orders[r]));
        var (L1, t) := Fill(L, inc, r, q);
        var (L2, ts) := MatchLoop(L1, inc, cands[1..], remaining - q);
        (L2, [t] + ts)
  }

  /** Total quantity of a list of trades. */
  function Traded(ts: seq<Trade>): int
  {
    if |ts| == 0 then 0 else ts[0].quantity + Traded(ts[1..])
  }

  /** Quantity of a list of trades taken from resting order k. */
  function TradedAgainst(ts: seq<Trade>, k: OrderId): int
  {
    if |ts| == 0 then 0 else (if ts[0].resting == k then ts[0].quantity else 0) + TradedAgainst(ts[1..], k)
  }

  /** What a list of trades refunds to an incoming order on `side` quoting
      `price`: the difference between its quote and its own-side execution
      price, per share. */
  function Rebate(ts: seq<Trade>, side: Side, price: int): int
  {
    if |ts| == 0 then 0
    else (price - SidePrice(side, ts[0].price)) * ts[0].quantity + Rebate(ts[1..], side, price)
  }

  /** Yes-price notional of a list of trades. */
  function Notional(ts: seq<Trade>): int
  {
    if |ts| == 0 then 0 else ts[0].price * ts[0].quantity + Notional(ts[1..])
  }

  lemma SnapshotAdvance(L: Ledger, inc: OrderId, cands: seq<OrderId>, remaining: int)
    requires Valid(L) && Snapshot(L, inc, cands, remaining)
    requires |cands| > 0 && remaining > 0
    ensures var i, o := L.orders[inc], L.orders[cands[0]];
            && Resting(i) && Resting(o) && Unfilled(o) > 0
            && (o.user == i.user ==> Snapshot(L, inc, cands[1..], remaining))
            && (o.user != i.user ==>
                  var q := Min(remaining, Unfilled(o));
                  && 0 < q <= Unfilled(i) && q <= Unfilled(o)
                  && Snapshot(Fill(L, inc, cands[0], q).0, inc, cands[1..], remaining - q))
  {
    var r := cands[0];
    var i, o := L.orders[inc], L.orders[r];
    assert OrderWF(i, |L.users|, |L.markets|) && OrderWF(o, |L.users|, |L.markets|);
    UnfilledOrderRests(i, |L.users|, |L.markets|);
    UnfilledOrderRests(o, |L.users|, |L.markets|);
    if o.user != i.user {
      var q := Min(remaining, Unfilled(o));
      FillRecords(L, inc, r, q);
      var L1 := Fill(L, inc, r, q).0;
      forall a | 0 <= a < |cands[1..]|
        ensures cands[1..][a] < |L1.orders| && cands[1..][a] != inc
        ensures Eligible(L1.orders[inc], L1.orders[cands[1..][a]])
      {
        assert cands[1..][a] == cands[a + 1] != r;
      }
    }
  }

  /** One turn of the matching loop, unfolded: a self order is skipped, any
      other candidate is filled and the loop goes on with the rest. */
  lemma MatchStep(L: Ledger, inc: OrderId, cands: seq<OrderId>, remaining: int)
    requires inc < |L.orders|
    requires forall a :: 0 <= a < |cands| ==> cands[a] < |L.orders|
    requires |cands| > 0 && remaining > 0
    ensures L.orders[cands[0]].user == L.orders[inc].user ==>
              MatchLoop(L, inc, cands, remaining) == MatchLoop(L, inc, cands[1..], remaining)
    ensures var q := Min(remaining, Unfilled(L.orders[cands[0]]));
            var (L1, t) := Fill(L, inc, cands[0], q);
            L.orders[cands[0]].user != L.orders[inc].user ==>
              && (forall a :: 0 <= a < |cands[1..]| ==> cands[1..][a] < |L1.orders|)
              && MatchLoop(L, inc, cands, remaining) ==
                 (MatchLoop(L1, inc, cands[1..], remaining - q).0, [t] + MatchLoop(L1, inc, cands[1..], remaining - q).1)
  {
  }

  /** A turn that skips one of the incoming user's own orders: the rest of
      the snapshot is still a snapshot, and the loop goes on from it. */
  lemma SkipAdvance(L: Ledger, inc: OrderId, cands: seq<OrderId>, remaining: int)
    requires Valid(L) && Snapshot(L, inc, cands, remaining)
    requires |cands| > 0 && remaining > 0 && L.orders[cands[0]].user == L.orders[inc].user
    ensures Snapshot(L, inc, cands[1..], remaining)
    ensures MatchLoop(L, inc, cands, remaining) == MatchLoop(L, inc, cands[1..], remaining)
  {
    SnapshotAdvance(L, inc, cands, remaining);
    MatchStep(L, inc, cands, remaining);
  }

  /** A turn that fills the head of the snapshot: the fill keeps the ledger
      valid, leaves a snapshot of the rest, and the loop goes on from it. */
  lemma FillAdvance(L: Ledger, inc: OrderId, cands: seq<OrderId>, remaining: int)
    requires Valid(L) && Snapshot(L, inc, cands, remaining)
    requires |cands| > 0 && remaining > 0 && L.orders[cands[0]].user != L.orders[inc].user
    ensures var q := Min(remaining, Unfilled(L.orders[cands[0]]));
            var L1, t := Fill(L, inc, cands[0], q).0, Fill(L, inc, cands[0], q).1;
            && Fillable(L, inc, cands[0], q)
            && Valid(L1)
            && Snapshot(L1, inc, cands[1..], remaining - q)
            && MatchLoop(L, inc, cands, remaining).0 == MatchLoop(L1, inc, cands[1..], remaining - q).0
            && MatchLoop(L, inc, cands, remaining).1 == [t] + MatchLoop(L1, inc, cands[1..], remaining - q).1
  {
    var q := Min(remaining, Unfilled(L.orders[cands[0]]));
    SnapshotAdvance(L, inc, cands, remaining);
    MatchStep(L, inc, cands, remaining);
    FillValid(L, inc, cands[0], q);
  }

  /** Matching keeps the ledger valid and its total value unchanged, and
      appends exactly the trades it reports. */
  lemma MatchValid(L: Ledger, inc: OrderId, cands: seq<OrderId>, remaining: int)
    requires Valid(L) && Snapshot(L, inc, cands, remaining)
    ensures var L', ts := MatchLoop(L, inc, cands, remaining).0, MatchLoop(L, inc, cands, remaining).1;
            && Valid(L')
            && Total(L') == Total(L)
            && |L'.orders| == |L.orders| && |L'.users| == |L.users| && |L'.markets| == |L.markets|
            && L'.trades == L.trades + ts
  {
    MatchKeepsValid(L, inc, cands, remaining);
    MatchConserves(L, inc, cands, remaining);
    MatchRecords(L, inc, cands, remaining);
  }

  lemma {:induction false} MatchKeepsValid(L: Ledger, inc: OrderId, cands: seq<OrderId>, remaining: int)
    requires Valid(L) && Snapshot(L, inc, cands, remaining)
    ensures Valid(MatchLoop(L, inc, cands, remaining).0)
    decreases |cands|
  {
    if |cands| > 0 && remaining > 0 {
      if L.orders[cands[0]].user == L.orders[inc].user {
        SkipAdvance(L, inc, cands, remaining);
        MatchKeepsValid(L, inc, cands[1..], remaining);
      } else {
        var q := Min(remaining, Unfilled(L.orders[cands[0]]));
        FillAdvance(L, inc, cands, remaining);
        MatchKeepsValid(Fill(L, inc, cands[0], q).0, inc, cands[1..], remaining - q);
      }
    }
  }

  lemma {:induction false} MatchConserves(L: Ledger, inc: OrderId, cands: seq<OrderId>, remaining: int)
    requires Valid(L) && Snapshot(L, inc, cands, remaining)
    ensures Total(MatchLoop(L, inc, cands, remaining).0) == Total(L)
    decreases |cands|
  {
    if |cands| > 0 && remaining > 0 {
      if L.orders[cands[0]].user == L.orders[inc].user {
        SkipAdvance(L, inc, cands, remaining);
        MatchConserves(L, inc, cands[1..], remaining);
      } else {
        var q := Min(remaining, Unfilled(L.orders[cands[0]]));
        FillAdvance(L, inc, cands, remaining);
        FillConserves(L, inc, cands[0], q);
        MatchConserves(Fill(L, inc, cands[0], q).0, inc, cands[1..], remaining - q);
      }
    }
  }

  lemma {:induction false} MatchRecords(L: Ledger, inc: OrderId, cands: seq<OrderId>, remaining: int)
    requires Valid(L) && Snapshot(L, inc, cands, remaining)
    ensures MatchLoop(L, inc, cands, remaining).0.trades == L.trades + MatchLoop(L, inc, cands, remaining).1
    decreases |cands|
  {
    if |cands| > 0 && remaining > 0 {
      if L.orders[cands[0]].user == L.orders[inc].user {
        SkipAdvance(L, inc, cands, remaining);
        MatchRecords(L, inc, cands[1..], remaining);
      } else {
        var q := Min(remaining, Unfilled(L.orders[cands[0]]));
        FillAdvance(L, inc, cands, remaining);
        FillTrades(L, inc, cands[0], q);
        var L1, t := Fill(L, inc, cands[0], q).0, Fill(L, inc, cands[0], q).1;
        MatchRecords(L1, inc, cands[1..], remaining - q);
        var ts := MatchLoop(L1, inc, cands[1..], remaining - q).1;
        assert L.trades + [t] + ts == L.trades + ([t] + ts);
      }
    }
  }

  /** The matching loop seen on the order book alone: the orders it leaves
      and the trades it reports. It takes the same turns as MatchLoop, which
      agrees with it (MatchBookAgrees), so the properties of matching that
      concern only orders and trades are proved here, away from the rest of
      the ledger. */
  function MatchBook(os: seq<Order>, inc: OrderId, cands: seq<OrderId>, remaining: int): (res: (seq<Order>, seq<Trade>))
    requires inc < |os|
    requires forall a :: 0 <= a < |cands| ==> cands[a] < |os|
    ensures |res.0| == |os|
    decreases |cands|
  {
    if |cands| == 0 || remaining <= 0 then (os, [])
    else
      var r := cands[0];
      var i, o := os[inc], os[r];
      if o.user == i.user then
        MatchBook(os, inc, cands[1..], remaining)
      else
        var q := Min(remaining, Unfilled(o));
        var (os', ts) := MatchBook(FillBook(os, inc, r, q), inc, cands[1..], remaining - q);
        (os', [Trade(i.market, inc, r, ExecutionPrice(i, o), q)] + ts)
  }

  /** The orders after one fill of q between inc and r. */
  function FillBook(os: seq<Order>, inc: OrderId, r: OrderId, q: int): (os': seq<Order>)
    requires inc < |os| && r < |os|
    ensures |os'| == |os|
  {
    os[inc := WithFill(os[inc], q)][r := WithFill(os[r], q)]
  }

  /** What the order-book lemmas below ask of a snapshot: ids in range, none
      of them the incoming order, no id twice. */
  ghost predicate BookReady(os: seq<Order>, inc: OrderId, cands: seq<OrderId>)
  {
    && inc < |os|
    && (forall a :: 0 <= a < |cands| ==> cands[a] < |os| && cands[a] != inc)
    && (forall a, b :: 0 <= a < b < |cands| ==> cands[a] != cands[b])
  }

  /** MatchLoop leaves the orders MatchBook computes and reports its trades. */
  lemma {:induction false} MatchBookAgrees(L: Ledger, inc: OrderId, cands: seq<OrderId>, remaining: int)
    requires inc < |L.orders| && L.orders[inc].market < |L.markets|
    requires forall a :: 0 <= a < |cands| ==> cands[a] < |L.orders| && cands[a] != inc
    ensures MatchLoop(L, inc, cands, remaining).0.orders == MatchBook(L.orders, inc, cands, remaining).0
    ensures MatchLoop(L, inc, cands, remaining).1 == MatchBook(L.orders, inc, cands, remaining).1
    decreases |cands|
  {
    if |cands| > 0 && remaining > 0 {
      var r := cands[0];
      MatchStep(L, inc, cands, remaining);
      if L.orders[r].user == L.orders[inc].user {
        MatchBookAgrees(L, inc, cands[1..], remaining);
      } else {
        var q := Min(remaining, Unfilled(L.orders[r]));
        var L1 := Fill(L, inc, r, q).0;
        FillRecords(L, inc, r, q);
        assert L1.orders == FillBook(L.orders, inc, r, q);
        MatchBookAgrees(L1, inc, cands[1..], remaining - q);
      }
    }
  }

  /** A snapshot the engine matches against is ready for the order-book
      lemmas, and its resting orders all have quantity left. */
  lemma SnapshotReady(L: Ledger, inc: OrderId, cands: seq<OrderId>, remaining: int)
    requires Valid(L) && Snapshot(L, inc, cands, remaining)
    ensures BookReady(L.orders, inc, cands)
    ensures L.orders[inc].market < |L.markets|
    ensures forall a :: 0 <= a < |cands| ==> Unfilled(L.orders[cands[a]]) > 0
    ensures L.orders[inc].status == StatusFor(L.orders[inc].filled, L.orders[inc].quantity)
  {
    assert OrderWF(L.orders[inc], |L.users|, |L.markets|);
    forall a | 0 <= a < |cands|
      ensures Unfilled(L.orders[cands[a]]) > 0
    {
      assert OrderWF(L.orders[cands[a]], |L.users|, |L.markets|);
      UnfilledOrderRests(L.orders[cands[a]], |L.users|, |L.markets|);
    }
  }

  /** The incoming order gains exactly the quantity it traded, and its status
      follows from the new fill count. */
  lemma {:induction false} BookIncoming(os: seq<Order>, inc: OrderId, cands: seq<OrderId>, remaining: int)
    requires BookReady(os, inc, cands) && os[inc].status == StatusFor(os[inc].filled, os[inc].quantity)
    ensures var os', ts := MatchBook(os, inc, cands, remaining).0, MatchBook(os, inc, cands, remaining).1;
            var i := os[inc];
            os'[inc] == i.(filled := i.filled + Traded(ts), status := StatusFor(i.filled + Traded(ts), i.quantity))
    decreases |cands|
  {
    if |cands| > 0 && remaining > 0 {
      var r := cands[0];
      var i, o := os[inc], os[r];
      if o.user == i.user {
        BookIncoming(os, inc, cands[1..], remaining);
      } else {
        var q := Min(remaining, Unfilled(o));
        var os1 := FillBook(os, inc, r, q);
        BookIncoming(os1, inc, cands[1..], remaining - q);
        var t := Trade(i.market, inc, r, ExecutionPrice(i, o), q);
        var (os2, ts) := MatchBook(os1, inc, cands[1..], remaining - q);
        assert MatchBook(os, inc, cands, remaining) == (os2, [t] + ts);
        assert os1[inc] == WithFill(i, q);
        assert ([t] + ts)[1..] == ts;
        assert Traded([t] + ts) == q + Traded(ts);
      }
    }
  }

  /** Every other order gains exactly what was traded against it and keeps
      all its other fields; one outside the snapshot, or owned by the
      incoming user, is not touched at all. */
  lemma {:induction false} BookOthers(os: seq<Order>, inc: OrderId, cands: seq<OrderId>, remaining: int)
    requires BookReady(os, inc, cands)
    ensures forall k :: 0 <= k < |os| && k != inc ==>
              var o' := MatchBook(os, inc, cands, remaining).0[k];
              && o'.filled == os[k].filled + TradedAgainst(MatchBook(os, inc, cands, remaining).1, k)
              && o' == os[k].(filled := o'.filled, status := o'.status)
    ensures forall k :: 0 <= k < |os| && k != inc && (k !in cands || os[k].user == os[inc].user) ==>
              MatchBook(os, inc, cands, remaining).0[k] == os[k]
    decreases |cands|
  {
    if |cands| > 0 && remaining > 0 {
      var r := cands[0];
      var i, o := os[inc], os[r];
      if o.user == i.user {
        BookOthers(os, inc, cands[1..], remaining);
        forall k | 0 <= k < |os| && k != inc && k !in cands
          ensures k !in cands[1..]
        {
        }
      } else {
        var q := Min(remaining, Unfilled(o));
        var os1 := FillBook(os, inc, r, q);
        BookOthers(os1, inc, cands[1..], remaining - q);
        var t := Trade(i.market, inc, r, ExecutionPrice(i, o), q);
        var ts := MatchBook(os1, inc, cands[1..], remaining - q).1;
        assert ([t] + ts)[1..] == ts;
        forall k | 0 <= k < |os| && k != inc
          ensures TradedAgainst([t] + ts, k) == (if k == r then q else 0) + TradedAgainst(ts, k)
        {
        }
        forall k | 0 <= k < |os| && k != inc && k !in cands
          ensures k !in cands[1..] && k != r
        {
        }
      }
    }
  }

  /** Every trade pairs the incoming order with a snapshot order of another
      user on the same market, has positive quantity and is priced by the
      execution rule on the two orders' quotes. */
  lemma {:induction false} BookTrades(os: seq<Order>, inc: OrderId, cands: seq<OrderId>, remaining: int)
    requires BookReady(os, inc, cands)
    requires forall a :: 0 <= a < |cands| ==> Unfilled(os[cands[a]]) > 0
    ensures forall n :: 0 <= n < |MatchBook(os, inc, cands, remaining).1| ==>
              var t := MatchBook(os, inc, cands, remaining).1[n];
              && t.incoming == inc
              && t.resting in cands
              && os[t.resting].user != os[inc].user
              && t.market == os[inc].market
              && t.quantity > 0
              && t.price == ExecutionPrice(os[inc], os[t.resting])
    decreases |cands|
  {
    if |cands| > 0 && remaining > 0 {
      var r := cands[0];
      var i, o := os[inc], os[r];
      if o.user == i.user {
        BookTrades(os, inc, cands[1..], remaining);
      } else {
        var q := Min(remaining, Unfilled(o));
        var os1 := FillBook(os, inc, r, q);
        var c: seq<OrderId> := cands[1..];
        assert forall a :: 0 <= a < |c| ==> c[a] != r && os1[c[a]] == os[c[a]];
        BookTrades(os1, inc, c, remaining - q);
        var t := Trade(i.market, inc, r, ExecutionPrice(i, o), q);
        var ts := MatchBook(os1, inc, c, remaining - q).1;
        assert MatchBook(os, inc, cands, remaining).1 == [t] + ts;
        assert os1[inc] == WithFill(i, q);
        forall n | 0 <= n < |[t] + ts|
          ensures ([t] + ts)[n].resting in cands
          ensures ([t] + ts)[n].resting < |os|
          ensures os[([t] + ts)[n].resting].user != i.user
          ensures ([t] + ts)[n].price == ExecutionPrice(i, os[([t] + ts)[n].resting])
        {
          if n > 0 {
            assert ([t] + ts)[n] == ts[n - 1];
            var k := ts[n - 1].resting;
            assert k in c;
            assert os1[k] == os[k];
          }
        }
      }
    }
  }

  /** Each trade of ts takes the smaller of what the incoming order still
      wants and what its resting order in os has unfilled, where the incoming
      order still wants `remaining` less everything traded before. */
  ghost predicate FillsFrom(os: seq<Order>, ts: seq<Trade>, remaining: int)
  {
    forall n :: 0 <= n < |ts| ==>
      && ts[n].resting < |os|
      && ts[n].quantity == Min(remaining - Traded(ts[..n]), Unfilled(os[ts[n].resting]))
  }

  /** The fill rule reads only the resting orders the trades name. */
  lemma FillsTransfer(os: seq<Order>, os': seq<Order>, ts: seq<Trade>, remaining: int)
    requires FillsFrom(os, ts, remaining)
    requires forall n :: 0 <= n < |ts| ==> ts[n].resting < |os'| && os[ts[n].resting] == os'[ts[n].resting]
    ensures FillsFrom(os', ts, remaining)
  {
  }

  /** The fill rule survives putting one more fill in front. */
  lemma FillsCons(os: seq<Order>, os1: seq<Order>, t: Trade, ts: seq<Trade>, remaining: int)
    requires t.resting < |os| && t.quantity == Min(remaining, Unfilled(os[t.resting]))
    requires FillsFrom(os1, ts, remaining - t.quantity)
    requires forall n :: 0 <= n < |ts| ==> ts[n].resting < |os| && os1[ts[n].resting] == os[ts[n].resting]
    ensures FillsFrom(os, [t] + ts, remaining)
  {
    forall n | 0 <= n < |[t] + ts|
      ensures ([t] + ts)[n].resting < |os|
      ensures ([t] + ts)[n].quantity == Min(remaining - Traded(([t] + ts)[..n]), Unfilled(os[([t] + ts)[n].resting]))
    {
      if n == 0 {
        assert ([t] + ts)[..n] == [];
      } else {
        assert ([t] + ts)[n] == ts[n - 1];
        assert ([t] + ts)[..n] == [t] + ts[..n - 1];
        assert ([t] + ts[..n - 1])[1..] == ts[..n - 1];
      }
    }
  }

  /** Every trade of the loop takes min(remaining, resting unfilled). */
  lemma {:induction false} BookFills(os: seq<Order>, inc: OrderId, cands: seq<OrderId>, remaining: int)
    requires BookReady(os, inc, cands)
    requires forall a :: 0 <= a < |cands| ==> Unfilled(os[cands[a]]) > 0
    ensures FillsFrom(os, MatchBook(os, inc, cands, remaining).1, remaining)
    decreases |cands|
  {
    if |cands| > 0 && remaining > 0 {
      var r := cands[0];
      var i, o := os[inc], os[r];
      if o.user == i.user {
        BookFills(os, inc, cands[1..], remaining);
      } else {
        var q := Min(remaining, Unfilled(o));
        var os1 := FillBook(os, inc, r, q);
        var c: seq<OrderId> := cands[1..];
        assert forall a :: 0 <= a < |c| ==> c[a] != r && os1[c[a]] == os[c[a]];
        BookTrades(os1, inc, c, remaining - q);
        BookFills(os1, inc, c, remaining - q);
        var t := Trade(i.market, inc, r, ExecutionPrice(i, o), q);
        var ts := MatchBook(os1, inc, c, remaining - q).1;
        assert MatchBook(os, inc, cands, remaining).1 == [t] + ts;
        forall n | 0 <= n < |ts|
          ensures ts[n].resting < |os| && os1[ts[n].resting] == os[ts[n].resting]
        {
          assert ts[n].resting in c;
        }
        FillsCons(os, os1, t, ts, remaining);
      }
    }
  }

  /** Matching stops early only by running out of quantity: if the incoming
      order still has quantity left afterwards, every snapshot order of
      another user has been filled completely. */
  lemma {:induction false} BookExhausts(os: seq<Order>, inc: OrderId, cands: seq<OrderId>, remaining: int)
    requires BookReady(os, inc, cands) && remaining == Unfilled(os[inc])
    ensures forall a :: 0 <= a < |cands| ==>
              (Unfilled(MatchBook(os, inc, cands, remaining).0[inc]) > 0 && os[cands[a]].user != os[inc].user ==>
                 MatchBook(os, inc, cands, remaining).0[cands[a]].status == Filled)
    decreases |cands|
  {
    if |cands| > 0 && remaining > 0 {
      var r := cands[0];
      var i, o := os[inc], os[r];
      var os' := MatchBook(os, inc, cands, remaining).0;
      var c: seq<OrderId> := cands[1..];
      if o.user == i.user {
        BookExhausts(os, inc, c, remaining);
        forall a | 0 <= a < |cands|
          ensures Unfilled(os'[inc]) > 0 && os[cands[a]].user != i.user ==> os'[cands[a]].status == Filled
        {
          if a > 0 {
            assert cands[a] == c[a - 1];
          }
        }
      } else {
        var q := Min(remaining, Unfilled(o));
        var os1 := FillBook(os, inc, r, q);
        BookExhausts(os1, inc, c, remaining - q);
        BookOthers(os1, inc, c, remaining - q);
        forall a | 0 <= a < |cands|
          ensures Unfilled(os'[inc]) > 0 && os[cands[a]].user != i.user ==> os'[cands[a]].status == Filled
        {
          if a > 0 {
            assert cands[a] == c[a - 1] && os1[c[a - 1]] == os[c[a - 1]];
          } else if q == Unfilled(o) {
            assert r !in c;
          } else {
            assert os' == os1;
          }
        }
      }
    }
  }

  /** Price-time priority: an order later in the snapshot receives a fill
      only once every earlier order of another user is filled completely. */
  lemma {:induction false} BookPriority(os: seq<Order>, inc: OrderId, cands: seq<OrderId>, remaining: int)
    requires BookReady(os, inc, cands)
    ensures Prioritized(os, MatchBook(os, inc, cands, remaining).0, inc, cands)
    decreases |cands|, 1
  {
    if |cands| > 0 && remaining > 0 {
      if os[cands[0]].user == os[inc].user {
        var os' := MatchBook(os, inc, cands, remaining).0;
        var c: seq<OrderId> := cands[1..];
        BookPriority(os, inc, c, remaining);
        forall a, b | 0 <= a < b < |cands|
          ensures os[cands[a]].user != os[inc].user && os'[cands[b]].filled > os[cands[b]].filled ==>
                    os'[cands[a]].status == Filled
        {
          if a > 0 {
            assert cands[a] == c[a - 1] && cands[b] == c[b - 1];
          }
        }
      } else {
        BookPriorityFill(os, inc, cands, remaining);
      }
    }
  }

  /** The step of BookPriority in which the head of the snapshot is filled. */
  lemma {:induction false} BookPriorityFill(os: seq<Order>, inc: OrderId, cands: seq<OrderId>, remaining: int)
    requires BookReady(os, inc, cands)
    requires |cands| > 0 && remaining > 0 && os[cands[0]].user != os[inc].user
    ensures Prioritized(os, MatchBook(os, inc, cands, remaining).0, inc, cands)
    decreases |cands|, 0
  {
    var r := cands[0];
    var o := os[r];
    var os' := MatchBook(os, inc, cands, remaining).0;
    var c: seq<OrderId> := cands[1..];
    var q := Min(remaining, Unfilled(o));
    var os1 := FillBook(os, inc, r, q);
    var rest := MatchBook(os1, inc, c, remaining - q).0;
    assert os' == rest;
    BookPriority(os1, inc, c, remaining - q);
    assert Prioritized(os1, rest, inc, c);
    assert forall a :: 0 <= a < |c| ==> c[a] < |os| && c[a] != inc && c[a] != r by {
      forall a | 0 <= a < |c|
        ensures c[a] < |os| && c[a] != inc && c[a] != r
      {
        assert c[a] == cands[a + 1];
      }
    }
    assert os1[inc].user == os[inc].user;
    assert forall k :: 0 <= k < |os| && k != inc && k != r ==> os1[k] == os[k];
    // the head is either filled completely, or it absorbed all that remained
    if q == Unfilled(o) {
      BookOthers(os1, inc, c, remaining - q);
      assert r !in c;
      assert os'[r] == os1[r];
      assert os'[r].status == Filled;
    } else {
      assert os' == os1;
    }
    assert forall b :: 0 <= b < |c| && os'[c[b]].filled > os1[c[b]].filled ==> os'[r].status == Filled;
    assert cands == [r] + c;
    PriorityStep(os, os1, os', inc, r, c);
  }

  /** Price-time priority between two states of the book: an order of the
      snapshot that gained fills after cands[a] means cands[a], if it belongs
      to another user than the incoming order, was filled completely. */
  ghost predicate Prioritized(os: seq<Order>, os': seq<Order>, inc: OrderId, cands: seq<OrderId>)
    requires inc < |os| && |os'| == |os|
    requires forall a :: 0 <= a < |cands| ==> cands[a] < |os|
  {
    forall a, b :: 0 <= a < b < |cands| ==>
      (os[cands[a]].user != os[inc].user && os'[cands[b]].filled > os[cands[b]].filled ==> os'[cands[a]].status == Filled)
  }

  /** The inductive step of price-time priority, over the orders before the
      head fill (os), after it (os1) and after the rest of the loop (os2). */
  lemma PriorityStep(os: seq<Order>, os1: seq<Order>, os2: seq<Order>, inc: OrderId, r: OrderId, c: seq<OrderId>)
    requires inc < |os| && r < |os| && |os1| == |os| && |os2| == |os|
    requires forall a :: 0 <= a < |c| ==> c[a] < |os| && c[a] != inc && c[a] != r
    requires os1[inc].user == os[inc].user
    requires forall k :: 0 <= k < |os| && k != inc && k != r ==> os1[k] == os[k]
    requires forall b :: 0 <= b < |c| && os2[c[b]].filled > os1[c[b]].filled ==> os2[r].status == Filled
    requires Prioritized(os1, os2, inc, c)
    ensures Prioritized(os, os2, inc, [r] + c)
  {
    var cands := [r] + c;
    forall a, b | 0 <= a < b < |cands|
      ensures os[cands[a]].user != os[inc].user && os2[cands[b]].filled > os[cands[b]].filled ==> os2[cands[a]].status == Filled
    {
      assert cands[b] == c[b - 1] && os1[c[b - 1]] == os[c[b - 1]];
      if a > 0 {
        assert cands[a] == c[a - 1] && os1[c[a - 1]] == os[c[a - 1]];
      }
    }
  }

  /** The incoming order gains exactly the quantity it traded, and its status
      follows from the new fill count. */
  lemma MatchIncoming(L: Ledger, inc: OrderId, cands: seq<OrderId>, remaining: int)
    requires Valid(L) && Snapshot(L, inc, cands, remaining)
    ensures var L', ts := MatchLoop(L, inc, cands, remaining).0, MatchLoop(L, inc, cands, remaining).1;
            var i := L.orders[inc];
            && |L'.orders| == |L.orders|
            && L'.orders[inc] ==
               i.(filled := i.filled + Traded(ts), status := StatusFor(i.filled + Traded(ts), i.quantity))
  {
    SnapshotReady(L, inc, cands, remaining);
    MatchBookAgrees(L, inc, cands, remaining);
    BookIncoming(L.orders, inc, cands, remaining);
  }

  /** Every other order gains exactly what was traded against it and keeps
      all its other fields; one outside the snapshot, or owned by the
      incoming user, is not touched at all. */
  lemma MatchOthers(L: Ledger, inc: OrderId, cands: seq<OrderId>, remaining: int)
    requires Valid(L) && Snapshot(L, inc, cands, remaining)
    ensures var L', ts := MatchLoop(L, inc, cands, remaining).0, MatchLoop(L, inc, cands, remaining).1;
            && |L'.orders| == |L.orders|
            && (forall k :: 0 <= k < |L.orders| && k != inc ==>
                  && L'.orders[k].filled == L.orders[k].filled + TradedAgainst(ts, k)
                  && L'.orders[k] == L.orders[k].(filled := L'.orders[k].filled, status := L'.orders[k].status))
            && (forall k :: 0 <= k < |L.orders| && k != inc && (k !in cands || L.orders[k].user == L.orders[inc].user) ==>
                  L'.orders[k] == L.orders[k])
  {
    SnapshotReady(L, inc, cands, remaining);
    MatchBookAgrees(L, inc, cands, remaining);
    BookOthers(L.orders, inc, cands, remaining);
  }

  /** Every fill of the loop is min(remaining, resting unfilled), where
      remaining is the starting quantity less what the earlier trades took. */
  lemma MatchFills(L: Ledger, inc: OrderId, cands: seq<OrderId>, remaining: int)
    requires Valid(L) && Snapshot(L, inc, cands, remaining)
    ensures forall n :: 0 <= n < |MatchLoop(L, inc, cands, remaining).1| ==>
              var t := MatchLoop(L, inc, cands, remaining).1[n];
              && t.resting < |L.orders|
              && t.quantity ==
                 Min(remaining - Traded(MatchLoop(L, inc, cands, remaining).1[..n]), Unfilled(L.orders[t.resting]))
  {
    SnapshotReady(L, inc, cands, remaining);
    MatchBookAgrees(L, inc, cands, remaining);
    BookFills(L.orders, inc, cands, remaining);
    assert FillsFrom(L.orders, MatchLoop(L, inc, cands, remaining).1, remaining);
  }

  /** Every trade pairs the incoming order with a snapshot order of another
      user on the same market, has positive quantity and is priced by the
      execution rule on the two orders' quotes. */
  lemma MatchTrades(L: Ledger, inc: OrderId, cands: seq<OrderId>, remaining: int)
    requires Valid(L) && Snapshot(L, inc, cands, remaining)
    ensures forall n :: 0 <= n < |MatchLoop(L, inc, cands, remaining).1| ==>
              var t := MatchLoop(L, inc, cands, remaining).1[n];
              && t.incoming == inc
              && t.resting in cands
              && L.orders[t.resting].user != L.orders[inc].user
              && t.market == L.orders[inc].market
              && t.quantity > 0
              && t.price == ExecutionPrice(L.orders[inc], L.orders[t.resting])
  {
    SnapshotReady(L, inc, cands, remaining);
    MatchBookAgrees(L, inc, cands, remaining);
    BookTrades(L.orders, inc, cands, remaining);
  }

  /** Matching stops early only by running out of quantity: if the incoming
      order still has quantity left afterwards, every snapshot order of
      another user has been filled completely. */
  lemma MatchExhausts(L: Ledger, inc: OrderId, cands: seq<OrderId>, remaining: int)
    requires Valid(L) && Snapshot(L, inc, cands, remaining)
    ensures var L' := MatchLoop(L, inc, cands, remaining).0;
            forall a :: 0 <= a < |cands| ==>
              (Unfilled(L'.orders[inc]) > 0 && L.orders[cands[a]].user != L.orders[inc].user ==>
                 L'.orders[cands[a]].status == Filled)
  {
    SnapshotReady(L, inc, cands, remaining);
    MatchBookAgrees(L, inc, cands, remaining);
    BookExhausts(L.orders, inc, cands, remaining);
  }

  /** Price-time priority: an order later in the snapshot receives a fill
      only once every earlier order of another user is filled completely. */
  lemma MatchPriority(L: Ledger, inc: OrderId, cands: seq<OrderId>, remaining: int)
    requires Valid(L) && Snapshot(L, inc, cands, remaining)
    ensures var L' := MatchLoop(L, inc, cands, remaining).0;
            forall a, b :: 0 <= a < b < |cands| ==>
              (L.orders[cands[a]].user != L.orders[inc].user && L'.orders[cands[b]].filled > L.orders[cands[b]].filled ==>
                 L'.orders[cands[a]].status == Filled)
  {
    SnapshotReady(L, inc, cands, remaining);
    MatchBookAgrees(L, inc, cands, remaining);
    BookPriority(L.orders, inc, cands, remaining);
  }

  /** Matching moves no cash but the incoming user's: the resting orders'
      owners paid when they were placed, and the incoming user is refunded
      the improvement of each of its trades. */
  lemma {:induction false} MatchBalances(L: Ledger, inc: OrderId, cands: seq<OrderId>, remaining: int)
    requires Valid(L) && Snapshot(L, inc, cands, remaining)
    ensures var L', ts := MatchLoop(L, inc, cands, remaining).0, MatchLoop(L, inc, cands, remaining).1;
            var i := L.orders[inc];
            forall v :: 0 <= v < |L.users| ==>
              L'.users[v].balance == L.users[v].balance + (if v == i.user then Rebate(ts, i.side, i.price) else 0)
    decreases |cands|
  {
    if |cands| > 0 && remaining > 0 {
      var r := cands[0];
      var i := L.orders[inc];
      SnapshotAdvance(L, inc, cands, remaining);
      MatchStep(L, inc, cands, remaining);
      if L.orders[r].user == i.user {
        MatchBalances(L, inc, cands[1..], remaining);
      } else {
        var o := L.orders[r];
        var q := Min(remaining, Unfilled(o));
        var L1 := Fill(L, inc, r, q).0;
        var t := Fill(L, inc, r, q).1;
        FillRecords(L, inc, r, q);
        FillValid(L, inc, r, q);
        FillBalances(L, inc, r, q);
        MatchBalances(L1, inc, cands[1..], remaining - q);
        var ts := MatchLoop(L1, inc, cands[1..], remaining - q).1;
        assert ([t] + ts)[1..] == ts;
        assert Rebate([t] + ts, i.side, i.price) == Improvement(i, o) * q + Rebate(ts, i.side, i.price);
        assert L1.orders[inc].side == i.side && L1.orders[inc].price == i.price && L1.orders[inc].user == i.user;
      }
    }
  }

  /** Matching prints on the incoming order's market alone: after at least
      one trade its prices are the last trade's and its volume has grown by
      the trades' notional; without trades it is unchanged. */
  lemma {:induction false} MatchMarket(L: Ledger, inc: OrderId, cands: seq<OrderId>, remaining: int)
    requires Valid(L) && Snapshot(L, inc, cands, remaining)
    ensures var L', ts := MatchLoop(L, inc, cands, remaining).0, MatchLoop(L, inc, cands, remaining).1;
            var m := L.orders[inc].market;
            && (forall k :: 0 <= k < |L.markets| && k != m ==> L'.markets[k] == L.markets[k])
            && (|ts| == 0 ==> L'.markets[m] == L.markets[m])
            && (|ts| > 0 ==>
                  L'.markets[m] == L.markets[m].(yesPrice := ts[|ts| - 1].price, noPrice := Payoff - ts[|ts| - 1].price,
                                                 volume := L.markets[m].volume + Notional(ts)))
    decreases |cands|
  {
    if |cands| > 0 && remaining > 0 {
      var r := cands[0];
      var i := L.orders[inc];
      SnapshotAdvance(L, inc, cands, remaining);
      MatchStep(L, inc, cands, remaining);
      if L.orders[r].user == i.user {
        MatchMarket(L, inc, cands[1..], remaining);
      } else {
        var o := L.orders[r];
        var q := Min(remaining, Unfilled(o));
        var L1 := Fill(L, inc, r, q).0;
        var t := Fill(L, inc, r, q).1;
        FillRecords(L, inc, r, q);
        FillValid(L, inc, r, q);
        MatchMarket(L1, inc, cands[1..], remaining - q);
        var ts := MatchLoop(L1, inc, cands[1..], remaining - q).1;
        assert ([t] + ts)[1..] == ts;
        assert Notional([t] + ts) == t.price * t.quantity + Notional(ts);
        assert |ts| > 0 ==> ([t] + ts)[|[t] + ts| - 1] == ts[|ts| - 1];
      }
    }
  }

  /** Whether order id is an order of user v on side s of market mk. */
  predicate OrderOn(os: seq<Order>, id: OrderId, v: UserId, mk: MarketId, s: Side)
  {
    id < |os| && os[id].user == v && os[id].market == mk && os[id].side == s
  }

  /** The shares a list of trades brings to the holding of user v on side s
      of market mk: each trade adds its quantity to the holding of each of
      its two orders. */
  function Acquired(os: seq<Order>, ts: seq<Trade>, v: UserId, mk: MarketId, s: Side): int
  {
    if |ts| == 0 then 0
    else
      var bought := if OrderOn(os, ts[0].incoming, v, mk, s) then ts[0].quantity else 0;
      var sold := if OrderOn(os, ts[0].resting, v, mk, s) then ts[0].quantity else 0;
      bought + sold + Acquired(os, ts[1..], v, mk, s)
  }

  /** The cost those shares are booked at: the incoming order's at its
      own-side execution price, the resting order's at its own quote. */
  function AcquiredCost(os: seq<Order>, ts: seq<Trade>, v: UserId, mk: MarketId, s: Side): int
  {
    if |ts| == 0 then 0
    else
      var bought := if OrderOn(os, ts[0].incoming, v, mk, s) then SidePrice(s, ts[0].price) * ts[0].quantity else 0;
      var sold := if OrderOn(os, ts[0].resting, v, mk, s) then os[ts[0].resting].price * ts[0].quantity else 0;
      bought + sold + AcquiredCost(os, ts[1..], v, mk, s)
  }

  /** Two order lists that agree on every order's owner, market, side and
      quote; matching changes only fill counts and statuses. */
  ghost predicate SameOwners(os: seq<Order>, os': seq<Order>)
  {
    && |os| == |os'|
    && (forall k :: 0 <= k < |os| ==>
          && os[k].user == os'[k].user && os[k].market == os'[k].market
          && os[k].side == os'[k].side && os[k].price == os'[k].price)
  }

  lemma {:induction false} AcquiredSameOwners(os: seq<Order>, os': seq<Order>, ts: seq<Trade>, v: UserId, mk: MarketId, s: Side)
    requires SameOwners(os, os')
    ensures Acquired(os, ts, v, mk, s) == Acquired(os', ts, v, mk, s)
    ensures AcquiredCost(os, ts, v, mk, s) == AcquiredCost(os', ts, v, mk, s)
    decreases |ts|
  {
    if |ts| > 0 {
      AcquiredSameOwners(os, os', ts[1..], v, mk, s);
    }
  }

  lemma AcquiredAppend(os: seq<Order>, t: Trade, ts: seq<Trade>, v: UserId, mk: MarketId, s: Side)
    ensures Acquired(os, [t] + ts, v, mk, s) == Acquired(os, [t], v, mk, s) + Acquired(os, ts, v, mk, s)
    ensures AcquiredCost(os, [t] + ts, v, mk, s) == AcquiredCost(os, [t], v, mk, s) + AcquiredCost(os, ts, v, mk, s)
  {
    assert ([t] + ts)[0] == t;
    assert ([t] + ts)[1..] == ts;
    assert [t][1..] == [];
  }

  /** When every trade is the incoming order's, against orders of other
      users, the incoming order's holding gains exactly the quantity traded,
      costed at the yes notional for a yes order and at its complement for a
      no order. */
  lemma {:induction false} AcquiredByIncoming(os: seq<Order>, ts: seq<Trade>, inc: OrderId)
    requires inc < |os|
    requires forall n :: 0 <= n < |ts| ==>
               ts[n].incoming == inc && ts[n].resting < |os| && os[ts[n].resting].user != os[inc].user
    ensures var i := os[inc];
            && Acquired(os, ts, i.user, i.market, i.side) == Traded(ts)
            && AcquiredCost(os, ts, i.user, i.market, i.side) ==
               (if i.side == Yes then Notional(ts) else Payoff * Traded(ts) - Notional(ts))
    decreases |ts|
  {
    if |ts| > 0 {
      assert forall n :: 0 <= n < |ts[1..]| ==> ts[1..][n] == ts[n + 1];
      AcquiredByIncoming(os, ts[1..], inc);
    }
  }

  /** The position stages of a fill move the holding of any (user, market,
      side): the incoming key gains the fill at the own-side execution price,
      the resting key gains it at the resting quote. */
  lemma FillHeldStages(L: Ledger, inc: OrderId, r: OrderId, q: int, v: UserId, mk: MarketId, s: Side)
    requires Fillable(L, inc, r, q)
    ensures var i, o := L.orders[inc], L.orders[r];
            var own := SidePrice(i.side, ExecutionPrice(i, o));
            var L3 := UpdatePosition(FillRefunded(L, inc, r, q), i.user, i.market, i.side, q, own);
            var L4 := UpdatePosition(L3, o.user, o.market, o.side, q, o.price);
            && Sum(L4.positions, HeldShares(v, mk, s)) ==
               Sum(L.positions, HeldShares(v, mk, s)) +
               ((if OrderOn(L.orders, inc, v, mk, s) then q else 0) + (if OrderOn(L.orders, r, v, mk, s) then q else 0)) as real
            && Sum(L4.positions, HeldCost(v, mk, s)) ==
               Sum(L.positions, HeldCost(v, mk, s)) +
               ((if OrderOn(L.orders, inc, v, mk, s) then own * q else 0) +
                (if OrderOn(L.orders, r, v, mk, s) then o.price * q else 0)) as real
  {
    var i, o := L.orders[inc], L.orders[r];
    var own := SidePrice(i.side, ExecutionPrice(i, o));
    var L2 := FillRefunded(L, inc, r, q);
    FillRefundedEffect(L, inc, r, q);
    var L3 := UpdatePosition(L2, i.user, i.market, i.side, q, own);
    UpdatePositionValid(L2, i.user, i.market, i.side, q, own);
    UpdatePositionHeld(L2, i.user, i.market, i.side, q, own, v, mk, s);
    UpdatePositionHeld(L3, o.user, o.market, o.side, q, o.price, v, mk, s);
  }

  /** A fill moves the holding of any (user, market, side) by what its one
      trade brings to it, at the prices the trade books. */
  lemma FillHeld(L: Ledger, inc: OrderId, r: OrderId, q: int, v: UserId, mk: MarketId, s: Side)
    requires Fillable(L, inc, r, q)
    ensures var L', t := Fill(L, inc, r, q).0, Fill(L, inc, r, q).1;
            && Sum(L'.positions, HeldShares(v, mk, s)) ==
               Sum(L.positions, HeldShares(v, mk, s)) + Acquired(L.orders, [t], v, mk, s) as real
            && Sum(L'.positions, HeldCost(v, mk, s)) ==
               Sum(L.positions, HeldCost(v, mk, s)) + AcquiredCost(L.orders, [t], v, mk, s) as real
  {
    var i, o := L.orders[inc], L.orders[r];
    var price := ExecutionPrice(i, o);
    FillHeldStages(L, inc, r, q, v, mk, s);
    FillStages(L, inc, r, q);
    var t := Trade(i.market, inc, r, price, q);
    assert [t][0] == t && [t][1..] == [];
  }

  /** One fill followed by the rest of the loop: what the rest brings on top
      of the filled ledger is what the whole brings on top of the original. */
  lemma HeldStep(L: Ledger, inc: OrderId, r: OrderId, q: int, ts: seq<Trade>, v: UserId, mk: MarketId, s: Side)
    requires Fillable(L, inc, r, q)
    ensures var L1, t := Fill(L, inc, r, q).0, Fill(L, inc, r, q).1;
            && Sum(L1.positions, HeldShares(v, mk, s)) + Acquired(L1.orders, ts, v, mk, s) as real ==
               Sum(L.positions, HeldShares(v, mk, s)) + Acquired(L.orders, [t] + ts, v, mk, s) as real
            && Sum(L1.positions, HeldCost(v, mk, s)) + AcquiredCost(L1.orders, ts, v, mk, s) as real ==
               Sum(L.positions, HeldCost(v, mk, s)) + AcquiredCost(L.orders, [t] + ts, v, mk, s) as real
  {
    FillHeld(L, inc, r, q, v, mk, s);
    FillRecords(L, inc, r, q);
    var L1, t := Fill(L, inc, r, q).0, Fill(L, inc, r, q).1;
    assert SameOwners(L.orders, L1.orders);
    AcquiredSameOwners(L.orders, L1.orders, ts, v, mk, s);
    AcquiredAppend(L.orders, t, ts, v, mk, s);
  }

  /** Matching moves the holding of any (user, market, side) by exactly what
      its trades bring to it: the incoming user's holding on its side by the
      shares it bought at its own-side prices, and each resting owner's by
      the shares bought from its orders at their quotes. */
  lemma {:induction false} MatchHeld(L: Ledger, inc: OrderId, cands: seq<OrderId>, remaining: int,
                                     v: UserId, mk: MarketId, s: Side)
    requires Valid(L) && Snapshot(L, inc, cands, remaining)
    ensures var L', ts := MatchLoop(L, inc, cands, remaining).0, MatchLoop(L, inc, cands, remaining).1;
            && Sum(L'.positions, HeldShares(v, mk, s)) ==
               Sum(L.positions, HeldShares(v, mk, s)) + Acquired(L.orders, ts, v, mk, s) as real
            && Sum(L'.positions, HeldCost(v, mk, s)) ==
               Sum(L.positions, HeldCost(v, mk, s)) + AcquiredCost(L.orders, ts, v, mk, s) as real
    decreases |cands|
  {
    if |cands| > 0 && remaining > 0 {
      if L.orders[cands[0]].user == L.orders[inc].user {
        SkipAdvance(L, inc, cands, remaining);
        MatchHeld(L, inc, cands[1..], remaining, v, mk, s);
      } else {
        var r := cands[0];
        var q := Min(remaining, Unfilled(L.orders[r]));
        FillAdvance(L, inc, cands, remaining);
        var L1 := Fill(L, inc, r, q).0;
        MatchHeld(L1, inc, cands[1..], remaining - q, v, mk, s);
        HeldStep(L, inc, r, q, MatchLoop(L1, inc, cands[1..], remaining - q).1, v, mk, s);
      }
    }
  }
}
