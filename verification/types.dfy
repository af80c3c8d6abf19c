/** The records of the prediction-market ledger (users, markets, orders,
    trades, positions) and the integrity constraints the database schema and
    the engine keep on them.

    Every price and every amount of money is a whole number of cents: an order
    quotes 1..99 cents for a share that pays 100 cents if its outcome wins.
    Each table is a sequence indexed by record id; ids are handed out in
    increasing order, so an order's id is also its position in creation order. */
module Types {

  type UserId = nat
  type MarketId = nat
  type OrderId = nat

  /** The cheapest and dearest price an order may quote, in cents. */
  const MinPrice: int := 1
  const MaxPrice: int := 99
  /** What one share of the winning outcome pays, in cents; also the sum of a
      market's yes and no prices. */
  const Payoff: int := 100
  /** The yes price of a market created without an explicit one. */
  const DefaultYesPrice: int := 50

  datatype Side = Yes | No

  function Opposite(s: Side): (r: Side)
    ensures r != s
  {
    if s == Yes then No else Yes
  }

  datatype OrderType = Limit | MarketOrder

  datatype OrderStatus = Open | Partial | Filled | Cancelled

  datatype MarketStatus = MarketOpen | ResolvedYes | ResolvedNo | MarketCancelled

  datatype User = User(balance: int)

  /** Descriptive fields of a market; the engine stores them and never reads them. */
  datatype MarketInfo = MarketInfo(
    title: string,
    description: string,
    category: string,
    resolutionSource: string,
    resolutionDate: string)

  datatype Market = Market(
    info: MarketInfo,
    status: MarketStatus,
    yesPrice: int,
    noPrice: int,
    volume: int)

  datatype Order = Order(
    user: UserId,
    market: MarketId,
    side: Side,
    kind: OrderType,
    price: int,
    quantity: int,
    filled: int,
    status: OrderStatus)

  /** A fill between the incoming (aggressing) order and a resting order; the
      price is the yes-equivalent execution price. */
  datatype Trade = Trade(
    market: MarketId,
    incoming: OrderId,
    resting: OrderId,
    price: int,
    quantity: int)

  datatype Position = Position(
    user: UserId,
    market: MarketId,
    side: Side,
    shares: int,
    avgPrice: real,
    realizedPnl: int)

  datatype Ledger = Ledger(
    users: seq<User>,
    markets: seq<Market>,
    orders: seq<Order>,
    trades: seq<Trade>,
    positions: seq<Position>)

  /** The engine's failure reasons; Message gives the text each one reports. */
  datatype Error =
    | InvalidPrice
    | InvalidQuantity
    | MarketNotOpenForTrading
    | UserNotFound
    | InsufficientBalance
    | OrderNotFound
    | OrderNotCancellable
    | MarketNotFound
    | MarketNotOpen

  function Message(e: Error): string
  {
    match e
    case InvalidPrice => "Price must be between 0.01 and 0.99"
    case InvalidQuantity => "Quantity must be a positive integer"
    case MarketNotOpenForTrading => "Market is not open for trading"
    case UserNotFound => "User not found"
    case InsufficientBalance => "Insufficient balance"
    case OrderNotFound => "Order not found"
    case OrderNotCancellable => "Order cannot be cancelled"
    case MarketNotFound => "Market not found"
    case MarketNotOpen => "Market is not open"
  }

  datatype Option<T> = None | Some(value: T)

  /** An operation either succeeds with a value or fails with a reason; a
      failure carries no ledger, so the caller's ledger stays as it was. */
  datatype Result<T> = Ok(value: T) | Err(error: Error)

  /** The status an order takes after its filled quantity changes. */
  function StatusFor(filled: int, quantity: int): (s: OrderStatus)
    ensures s == Filled <==> filled >= quantity
    ensures s == Partial <==> 0 < filled < quantity
    ensures s == Open <==> filled <= 0 && filled < quantity
    ensures s != Cancelled
  {
    if filled >= quantity then Filled
    else if filled > 0 then Partial
    else Open
  }

  /** An order that still sits on the book. */
  predicate Resting(o: Order)
  {
    o.status == Open || o.status == Partial
  }

  function Unfilled(o: Order): int
  {
    o.quantity - o.filled
  }

  /** The money set aside for the unfilled part of a resting order. */
  function Reserved(o: Order): real
  {
    if Resting(o) then (o.price * Unfilled(o)) as real else 0.0
  }

  function Funds(u: User): real
  {
    u.balance as real
  }

  /** What a position cost its holder: average price times shares. */
  function CostBasis(p: Position): real
  {
    p.avgPrice * p.shares as real
  }

  predicate Holds(p: Position, u: UserId, m: MarketId, side: Side)
  {
    p.user == u && p.market == m && p.side == side
  }

  predicate ValidPrice(price: int)
  {
    MinPrice <= price <= MaxPrice
  }

  /** A real number with no fractional part. */
  predicate Integral(x: real)
  {
    x.Floor as real == x
  }

  /** Rounding of a cent amount to a whole cent, halves away from zero, as
      formatting an amount to two decimals does. */
  function Cents(x: real): int
  {
    if x >= 0.0 then (x + 0.5).Floor else -((-x + 0.5).Floor)
  }

  lemma CentsExact(x: real)
    requires Integral(x)
    ensures Cents(x) as real == x
  {
    var k := x.Floor;
    assert x == k as real;
    if x >= 0.0 {
      assert (x + 0.5).Floor == k;
    } else {
      assert (-x + 0.5).Floor == -k;
    }
  }

  lemma IntegralAdd(x: real, k: int)
    requires Integral(x)
    ensures Integral(x + k as real) && Integral(k as real - x)
  {
    var f := x.Floor;
    assert x == f as real;
    WholeFloor(f + k);
    WholeFloor(k - f);
  }

  lemma WholeFloor(n: int)
    ensures Integral(n as real) && (n as real).Floor == n
  {
  }

  predicate Between(x: real, a: real, b: real)
  {
    (a <= x <= b) || (b <= x <= a)
  }

  // ---- integrity of the ledger -------------------------------------------

  /** The market's prices always sum to one payoff; a resolved market shows the
      terminal prices of its outcome. */
  predicate MarketWF(mk: Market)
  {
    && mk.yesPrice + mk.noPrice == Payoff
    && mk.volume >= 0
    && (mk.status == ResolvedYes ==> mk.yesPrice == Payoff && mk.noPrice == 0)
    && (mk.status == ResolvedNo ==> mk.yesPrice == 0 && mk.noPrice == Payoff)
  }

  /** An order refers to an existing user and market, quotes a valid price,
      asks a positive quantity, has 0 <= filled <= quantity, and unless
      cancelled carries the status its fill count implies. */
  predicate OrderWF(o: Order, users: nat, markets: nat)
  {
    && o.user < users
    && o.market < markets
    && ValidPrice(o.price)
    && o.quantity > 0
    && 0 <= o.filled <= o.quantity
    && (o.status != Cancelled ==> o.status == StatusFor(o.filled, o.quantity))
  }

  predicate TradeWF(t: Trade, markets: nat, orders: nat)
  {
    && t.market < markets
    && t.incoming < orders
    && t.resting < orders
    && ValidPrice(t.price)
    && t.quantity > 0
  }

  /** A position belongs to an existing user and market, holds a non-negative
      number of shares bought at an average within the price band, and its
      cost basis is a whole number of cents. */
  predicate PositionWF(p: Position, users: nat, markets: nat)
  {
    && p.user < users
    && p.market < markets
    && p.shares >= 0
    && MinPrice as real <= p.avgPrice <= MaxPrice as real
    && Integral(CostBasis(p))
  }

  /** At most one position per (user, market, side). */
  predicate PositionsUnique(ps: seq<Position>)
  {
    forall i, j :: 0 <= i < j < |ps| ==> !Holds(ps[j], ps[i].user, ps[i].market, ps[i].side)
  }

  predicate Valid(L: Ledger)
  {
    && (forall u :: 0 <= u < |L.users| ==> L.users[u].balance >= 0)
    && (forall m :: 0 <= m < |L.markets| ==> MarketWF(L.markets[m]))
    && (forall k :: 0 <= k < |L.orders| ==> OrderWF(L.orders[k], |L.users|, |L.markets|))
    && (forall k :: 0 <= k < |L.trades| ==> TradeWF(L.trades[k], |L.markets|, |L.orders|))
    && (forall k :: 0 <= k < |L.positions| ==> PositionWF(L.positions[k], |L.users|, |L.markets|))
    && PositionsUnique(L.positions)
  }

  /** An order that is not cancelled and still has quantity to fill rests on the book. */
  lemma UnfilledOrderRests(o: Order, users: nat, markets: nat)
    requires OrderWF(o, users, markets)
    requires o.status != Cancelled
    ensures Resting(o) <==> Unfilled(o) > 0
    ensures o.status == Filled <==> Unfilled(o) == 0
  {
  }
}
