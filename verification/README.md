# Polycast matching and settlement engine in Dafny

This project models the engine behind polycast, a binary yes/no prediction
market. Users buy shares of an outcome at a price between 1 and 99 cents. A
share of the winning outcome pays 100 cents. The engine is two classes over a
small database:

- `OrderBook` admits orders and reserves their cost. It matches each order
  against resting orders of the other outcome by the complementary-price
  rule: a yes quote and a no quote cross when they sum to at least 100 cents.
  It fills in price-time priority and skips the trader's own orders. It
  refunds price improvement and updates the traders' weighted-average
  positions and the market's last price and volume. It cancels the unfilled
  rest of a market order, and it lets a user cancel a resting order.
- `MarketManager` creates markets. It resolves a market, which cancels
  resting orders, pays winners 100 cents a share and books realised profit
  and loss. It also cancels a market, which refunds resting orders and
  position cost bases.

The database becomes an immutable `Ledger` of five sequences: users, markets,
orders, trades and positions. A record's id is its index. Each operation is a
pure function from ledger to ledger. A failing operation returns
`Err(reason)` and no ledger, so the caller keeps the one it had.

Modules, in dependency order:

| file | module | contents |
|---|---|---|
| `sums.dfy` | `Sums` | real-valued sums over sequences |
| `types.dfy` | `Types` | records, prices, statuses, error texts, ledger well-formedness `Valid` |
| `mutator.dfy` | `Mutator` | primitive updates: credit, fill, release, position update, market print; the conserved `Total` |
| `priority.dfy` | `Priority` | price-time priority and the queue of resting orders |
| `matching.dfy` | `Matching` | eligibility, execution price, one fill, the matching loop |
| `orderbook.dfy` | `OrderBook` | `PlaceOrder`, `CancelOrder`, `GetOrderBook` |
| `market.dfy` | `MarketManager` | `CreateMarket`, `GetMarket`, `ResolveMarket`, `CancelMarket` |
| `scenarios.dfy` | `Scenarios` | a concrete crossing of a yes and a no order |

Money is whole cents throughout. `Total(L)` is the sum of three parts:

- all balances;
- the reserved notional `price × unfilled` of every resting order;
- the cost basis `avgPrice × shares` of every position.

Placing, matching and cancelling an order keep `Total` unchanged.
Resolution raises it by exactly the winners' payout. Market cancellation
raises it by exactly the refunded cost bases.

The price-improvement rule is asymmetric:

- A yes aggressor trades at `100 − resting no price`. It gets back the
  overlap of the two quotes.
- A no aggressor trades at `100 − its own price`. It gets nothing back.
- The resting order is always costed at its own quote. So when a no order
  aggresses, the two positions together cost more than 100 cents a share.
  `Matching.Surplus` names that excess.

The model keeps this asymmetry as the code has it.

The matching loop is also given a second, smaller definition,
`Matching.MatchBook`. It replays the same loop on the order list alone,
without balances, positions or markets. `Matching.MatchBookAgrees` shows the
two give the same orders and trades. The properties of the loop about orders
and trades (fill counts, trade fields, exhaustion, priority) are proved on
this smaller definition.

## Model

| member | source | states |
|---|---|---|
| Types.StatusFor | src/lib/engine/orderbook.ts:201-215 | an order is filled exactly when filled ≥ quantity, partial exactly when 0 < filled < quantity, open otherwise, and never cancelled by a fill |
| Types.UnfilledOrderRests | src/lib/engine/orderbook.ts:201-215 | a well-formed order that is not cancelled rests on the book exactly when it has unfilled quantity, and is filled exactly when it has none |
| Types.CentsExact | src/lib/engine/market.ts:77-83 | rounding to two decimals leaves an amount that is already a whole number of cents unchanged, so the P&L and refunds the model books at settlement are exact |
| Mutator.Credit | src/lib/engine/orderbook.ts:67-68 | only the named user's balance moves, by exactly the amount; the sum of all balances moves by the same amount |
| Mutator.CreditValid | src/lib/engine/orderbook.ts:166-180 | crediting a non-negative amount keeps every ledger invariant |
| Mutator.AddFill | src/lib/engine/orderbook.ts:153-164 | one order's fill count grows by the fill and its status becomes the one that count implies; every other field and record is untouched; the reserved notional drops by price × fill |
| Mutator.AddFillValid | src/lib/engine/orderbook.ts:153-164 | a fill no larger than the unfilled quantity keeps 0 ≤ filled ≤ quantity and every other invariant |
| Mutator.Release | src/lib/engine/orderbook.ts:269-273 | the order becomes cancelled and only its owner is refunded price × unfilled quantity; for a resting order the ledger's total value is unchanged |
| Mutator.ReleaseValid | src/lib/engine/orderbook.ts:269-273 | cancelling an order keeps every ledger invariant |
| Mutator.FindPosition | src/lib/engine/orderbook.ts:224-226 | finds a position held under the (user, market, side) key, and reports none only when no position has that key |
| Mutator.WeightedAverage | src/lib/engine/orderbook.ts:229-233 | new average × total shares equals old cost plus price × new shares; the average lies between the old average and the fill price; it is the fill price when nothing was held |
| Mutator.UpdatePositionEffect | src/lib/engine/orderbook.ts:217-243 | keeps at most one position per (user, market, side) and every invariant; an existing position gains the shares, keeps its P&L and gets an average between the old one and the price; otherwise a position at the price is appended; other positions are untouched; total cost basis grows by price × shares |
| Mutator.UpdatePositionValid | src/lib/engine/orderbook.ts:217-243 | a position update keeps every ledger invariant and raises the total cost basis by exactly price × shares |
| Mutator.UpdatePositionHeld | src/lib/engine/orderbook.ts:224-242 | the shares and cost held under the updated key grow by the shares and price × shares; every other key's holdings are unchanged |
| Mutator.UpdatePosition | src/lib/engine/orderbook.ts:217-243 | a position update writes positions only: users, markets, orders and trades are untouched; what it does to the positions is Mutator.UpdatePositionEffect |
| Mutator.RecordPrint | src/lib/engine/orderbook.ts:187-193 | the market's yes price becomes the trade price and its two prices sum to 100; volume grows by price × quantity; status, description and other markets are unchanged |
| Mutator.RecordPrintValid | src/lib/engine/orderbook.ts:187-193 | printing a valid price on an open market keeps every ledger invariant |
| Priority.Insert | src/lib/engine/orderbook.ts:104-109 | inserting into a price-time ordered list keeps it ordered and adds exactly the new id |
| Priority.Queue | src/lib/engine/orderbook.ts:104-109 | lists exactly the resting orders of one market and side priced at least the floor, highest price first and older first within a price |
| Priority.SortedUnique | src/lib/engine/orderbook.ts:104-109 | two price-time ordered lists with the same members are equal, so the ordering fixes the list |
| Priority.QueueIsPriceTimeOrder | src/lib/engine/orderbook.ts:104-109 | any price-time ordered list of exactly the queued orders is the queue |
| Matching.Candidates | src/lib/engine/orderbook.ts:97-109 | the snapshot holds exactly the resting orders of the opposite side on the same market whose price is at least 100 minus the incoming price, in price-time order |
| Matching.ExecutionPrice | src/lib/engine/orderbook.ts:121-126 | the trade price is a valid price, at most the yes side's quote, and its complement is at most the no side's quote |
| Matching.Improvement | src/lib/engine/orderbook.ts:166-180 | the refund per share is never negative between crossing orders; it is the overlap of the quotes for a yes aggressor and zero for a no aggressor |
| Matching.Fill | src/lib/engine/orderbook.ts:134-193 | one fill adds no user, market or order; the trade it records and the records it moves are stated by the Fill lemmas below |
| Matching.FillRecords | src/lib/engine/orderbook.ts:134-193 | one fill records one trade between the two orders at the execution price, adds the fill to both orders with recomputed status, leaves other orders alone and prints the trade on the market |
| Matching.FillRefundedEffect | src/lib/engine/orderbook.ts:153-180 | after the fill counts and the refund, only the incoming user gains the improvement and the reserved notional drops by both quotes × fill |
| Matching.FillCost | src/lib/engine/orderbook.ts:182-185 | the two position updates raise total cost basis by the incoming side's price plus the resting quote, each times the fill |
| Matching.FillValid | src/lib/engine/orderbook.ts:153-193 | a fill within both orders' unfilled quantities keeps every ledger invariant |
| Matching.FillConserves | src/lib/engine/orderbook.ts:153-193 | a fill leaves the ledger's total value unchanged |
| Matching.FillBalances | src/lib/engine/orderbook.ts:166-180 | a fill changes only the incoming user's balance, by improvement × fill |
| Matching.FillFunds | src/lib/engine/orderbook.ts:153-193 | a fill keeps the ledger valid and its total unchanged; it credits only the improvement; the two positions together cost (100 + surplus) × fill |
| Matching.FillHoldings | src/lib/engine/orderbook.ts:182-185 | each party's holdings on its side grow by the fill, the aggressor's cost by its own-side price × fill and the resting party's by its quote × fill |
| Matching.MatchLoop | src/lib/engine/orderbook.ts:111-196 | the loop adds no user, market or order; its effects are stated by the Match lemmas below |
| Matching.MatchFills | src/lib/engine/orderbook.ts:111-119 | every trade of the loop fills min(remaining, resting unfilled), where remaining is the starting quantity less the earlier trades, measured on the orders as the loop found them |
| Matching.MatchHeld | src/lib/engine/orderbook.ts:182-185 | the loop moves the shares and cost held under every (user, market, side) by exactly what its trades bring: the aggressor's side at its own-side price, each resting order's owner at that order's quote |
| Matching.MatchValid | src/lib/engine/orderbook.ts:111-196 | the matching loop keeps the ledger valid and its total unchanged, and appends exactly the trades it returns |
| Matching.MatchBookAgrees | src/lib/engine/orderbook.ts:111-164 | the orders the matching loop leaves and the trades it reports depend on the orders alone: the same loop replayed on the order list gives the same orders and the same trades |
| Matching.MatchIncoming | src/lib/engine/orderbook.ts:153-164 | the incoming order's fill count grows by the quantity traded and its status follows from it |
| Matching.MatchOthers | src/lib/engine/orderbook.ts:113-164 | each other order's fill count grows by what it traded against the incoming order; orders outside the snapshot and the user's own orders are untouched |
| Matching.MatchTrades | src/lib/engine/orderbook.ts:124-151 | every trade names the incoming order, a snapshot order of another user, the market, a positive quantity and the execution price |
| Matching.MatchExhausts | src/lib/engine/orderbook.ts:111-119 | if the incoming order is left with unfilled quantity, every snapshot order of another user was filled completely |
| Matching.MatchPriority | src/lib/engine/orderbook.ts:104-119 | a snapshot order of another user is filled completely before any later snapshot order trades |
| Matching.MatchBalances | src/lib/engine/orderbook.ts:166-180 | matching changes only the incoming user's balance, by the summed improvement refunds |
| Matching.MatchMarket | src/lib/engine/orderbook.ts:187-193 | after matching, the market quotes the last trade's price and its complement, and its volume grew by the yes-price notional; with no trade it is unchanged |
| OrderBook.Admit | src/lib/engine/orderbook.ts:51-75 | admission appends the order open with nothing filled and debits only its owner price × quantity, keeping the total value |
| OrderBook.AdmitValid | src/lib/engine/orderbook.ts:40-75 | admitting an order the owner can afford keeps every ledger invariant |
| OrderBook.Sweep | src/lib/engine/orderbook.ts:83-89 | an unfilled market order is cancelled, with every other field kept, and its owner refunded price × unfilled; a limit order or a completely filled market order is left exactly as it was |
| OrderBook.SweepValid | src/lib/engine/orderbook.ts:83-89 | the sweep keeps the ledger valid and its total unchanged |
| OrderBook.Check | src/lib/engine/orderbook.ts:26-49 | each rejection (invalid price, then non-positive or fractional quantity, then missing or closed market, then missing user, then insufficient balance) happens exactly when its condition holds and the earlier ones do not |
| OrderBook.PlaceOrder | src/lib/engine/orderbook.ts:18-93 | a placement fails exactly when a check fails, with that check's reason; on success the new order takes the next id |
| OrderBook.PlaceOrderValid | src/lib/engine/orderbook.ts:18-93 | an accepted placement keeps the ledger valid and its total value unchanged |
| OrderBook.PlaceOrderOrder | src/lib/engine/orderbook.ts:51-93 | the new order ends with the traded quantity as its fill count; a limit order has the status its fills imply; a market order ends filled if it traded everything and cancelled otherwise |
| OrderBook.PlaceOrderTrades | src/lib/engine/orderbook.ts:104-151 | every trade is against an eligible resting order of another user that existed before, at a valid price within both quotes |
| OrderBook.PlaceOrderFills | src/lib/engine/orderbook.ts:111-119 | each trade fills min(quantity less the earlier trades, the resting order's unfilled quantity before the placement) |
| OrderBook.PlaceOrderBalances | src/lib/engine/orderbook.ts:18-93 | only the placing user's balance changes: minus price × quantity, plus the improvement refunds, plus price × unfilled for a market order |
| OrderBook.PlaceOrderPositions | src/lib/engine/orderbook.ts:182-185 | every holding moves by exactly what the trades bring to it; the placing user's holding gains the traded quantity, costed at the yes notional for a yes order and at its complement for a no order |
| OrderBook.PlaceOrderOthers | src/lib/engine/orderbook.ts:113-164 | each existing order's fill count grows by what it traded; orders that are not eligible and the user's own orders are untouched |
| OrderBook.PlaceOrderFair | src/lib/engine/orderbook.ts:104-119 | if the new order is not completely filled, every eligible order of another user is filled; an eligible order earlier in price-time order is filled completely before a later one trades |
| OrderBook.PlaceOrderMarket | src/lib/engine/orderbook.ts:187-193 | the market quotes the last trade's price and complement and its volume grows by the notional; without trades it and all other markets are unchanged |
| OrderBook.CancelOrder | src/lib/engine/orderbook.ts:259-276 | "Order not found" exactly when the order is absent or someone else's; "Order cannot be cancelled" exactly when it is filled or cancelled; otherwise only that order becomes cancelled and only its owner gets price × unfilled back |
| OrderBook.CancelOrderValid | src/lib/engine/orderbook.ts:259-276 | cancellation keeps the ledger valid and its total unchanged, and a second cancellation is refused |
| OrderBook.GetOrderBook | src/lib/engine/orderbook.ts:245-257 | both sides of the book are in price-time order and hold only resting orders of that market and side |
| OrderBook.BookIsRestingOrders | src/lib/engine/orderbook.ts:245-257 | each side of the book holds exactly the resting orders of that market and side, and is the only price-time ordered list of them |
| OrderBook.CandidatesAreBookPrefix | src/lib/engine/orderbook.ts:99-109 | the matching snapshot is exactly the opposite side of the book priced at least 100 minus the incoming price |
| MarketManager.CreateMarket | src/lib/engine/market.ts:8-28 | the new market takes the next id and is open with volume 0; its yes price is the argument or 50 and its two prices sum to 100; nothing else changes |
| MarketManager.GetMarket | src/lib/engine/market.ts:30-32 | finds the market exactly when the id exists |
| MarketManager.CreateMarketValid | src/lib/engine/market.ts:16-27 | creation keeps the ledger valid and its total unchanged; the new market can be found and is open for trading; every other market reads as before |
| MarketManager.CancelRestingEffect | src/lib/engine/market.ts:56-66 | the bulk sweep cancels exactly the market's resting orders and refunds each owner the sum of price × unfilled over them; the total is unchanged |
| MarketManager.CancelResting | src/lib/engine/market.ts:56-66 | the sweep writes only orders and balances: markets, trades and positions are untouched and no record is added |
| MarketManager.Book | src/lib/engine/market.ts:79-83 | booking one position moves only its realised P&L, by the booked amount, and credits only its holder, by the payment |
| MarketManager.BookValid | src/lib/engine/market.ts:79-83 | booking a non-negative payment keeps every invariant and raises the total by the payment |
| MarketManager.PaymentNonNegative | src/lib/engine/market.ts:74-84 | settlement never takes money from a holder |
| MarketManager.Settle | src/lib/engine/market.ts:68-97 | a settlement pass leaves markets, orders and trades as they are and adds no user or position |
| MarketManager.SettleValid | src/lib/engine/market.ts:68-97 | a settlement pass keeps the ledger valid and raises its total by exactly what it pays out |
| MarketManager.SettlePositions | src/lib/engine/market.ts:68-97 | a pass books P&L on exactly the selected positions with shares and changes nothing else about them |
| MarketManager.SettleBalances | src/lib/engine/market.ts:74-84 | a pass credits each user exactly the payments on their selected positions |
| MarketManager.WinnersPaidPerShare | src/lib/engine/market.ts:74-84 | a user's winnings are 100 cents for each share they hold on the winning side |
| MarketManager.RefundsAtCost | src/lib/engine/market.ts:121-131 | a market cancellation refunds each user exactly the cost basis of their positions on the market |
| MarketManager.BookedExactly | src/lib/engine/market.ts:74-97 | a winner books 100 × shares minus cost basis and a loser books minus its cost basis, with no rounding error |
| MarketManager.ResolveMarket | src/lib/engine/market.ts:45-100 | "Market not found" exactly when the id is absent and "Market is not open" exactly when it is closed; on success the market shows the outcome's status and terminal prices 100/0, keeps volume and description, and no trade is added |
| MarketManager.ResolveMarketValid | src/lib/engine/market.ts:45-100 | resolution keeps the ledger valid and raises its total by exactly the payout to winning positions |
| MarketManager.ResolveMarketOrders | src/lib/engine/market.ts:56-66 | resolution cancels exactly the market's resting orders, so none rests afterwards, and leaves all other orders alone |
| MarketManager.ResolveMarketPositions | src/lib/engine/market.ts:68-97 | only realised P&L changes: winners gain 100 × shares minus cost, losers lose their cost, empty and other-market positions are unchanged |
| MarketManager.ResolveMarketBalances | src/lib/engine/market.ts:56-84 | each user is credited the refunds of their resting orders on the market plus 100 cents per winning share held, so a losing share is paid nothing |
| MarketManager.CancelMarket | src/lib/engine/market.ts:102-133 | same failures as resolution; on success only the market's status changes, to cancelled, and no trade is added |
| MarketManager.CancelMarketValid | src/lib/engine/market.ts:102-133 | market cancellation keeps the ledger valid and raises its total by exactly the refunded cost bases |
| MarketManager.CancelMarketEffect | src/lib/engine/market.ts:107-119 | positions are untouched, and exactly the market's resting orders become cancelled |
| MarketManager.CancelMarketBalances | src/lib/engine/market.ts:109-131 | each user is credited the refunds of their resting orders on the market plus the cost basis of their positions on it |
| MarketManager.ClosedMarketIsTerminal | src/lib/engine/market.ts:45-48 | a resolved or cancelled market is closed; on a closed market resolve and cancel fail with "Market is not open", and a well-formed order is rejected with "Market is not open for trading" |
| Scenarios.FirstRests | tests/engine/pricing.test.ts:44-50 | a yes order at 60 for 10 on an empty book rests untraded and reserves 600 cents |
| Scenarios.CrossingPair | tests/engine/pricing.test.ts:44-50 | a no order at 40 for 10 then fills against it in one trade at yes price 60 |
| Scenarios.CrossingPairPrices | tests/engine/pricing.test.ts:44-50 | afterwards the market quotes 60/40, its volume is 600 cents, and each buyer paid exactly its own quote per share |

## Left out

- Floating point: prices are whole cents from 1 to 99 and money is whole cents. The `toFixed(2)` roundings of prices, refunds and volume are then exact. The `0.001` improvement tolerance becomes "greater than zero". A price with a fraction of a cent cannot be expressed.
- Mutator.WeightedAverage: the average is an exact real. It is not rounded to four decimals as `toFixed(4)` does, so a cost basis stays a whole number of cents. In the source the rounding can move money at settlement. A user who buys 1 share at 1 cent and then 2000 shares at 2 cents holds an average of 0.0200 dollars after rounding, so `cancelMarket` refunds 40.02 dollars for a cost of 40.01, and a resolution books P&L against the rounded cost. The model refunds and books the exact cost.
- MarketManager.CreateMarket: the initial yes price is a whole number of cents. The source does not validate the argument at all; the model does not either, but it cannot express a fractional one.
- Realised P&L is held as whole cents. Settlement rounds each booking with `Types.Cents`, which `Types.CentsExact` shows is exact in the model, because the model's cost bases are whole cents. In the source they are not always (see the `Mutator.WeightedAverage` line).
- `listMarkets` is not modelled. It is a filtered, sorted read with no effect on the ledger.
- Ids: uuids become dense sequence indexes. Trade ids and timestamps are dropped.
- Time priority is a refinement. The source orders the queue by `price DESC, created_at ASC`, and `created_at` is an ISO timestamp with millisecond resolution (src/lib/engine/orderbook.ts:53). Two orders placed in the same millisecond at the same price tie, and the database may return them in either order. The model breaks every tie by order id, which is insertion order. Its price-time results hold for that one order, which is among the orders the source may produce.
- `getOrderBook` returns order ids, not order records. The record behind an id is `L.orders[id]`.
- The matching snapshot holds ids and reads each record from the current ledger, not the copy the query returned. The two agree, because each snapshot order is touched only at its own step and the incoming order is never in the snapshot.
- Resolution and market cancellation visit orders and positions in id order. The source visits them in database order. No visit reads anything another visit writes, so the order cannot change the result.
- The market-order sweep cancels under the guard `status IN ('open','partial')`. The model drops the guard, because it always holds while the order has unfilled quantity.
- The database, transactions and concurrency are not modelled. Each operation runs alone and in full.
- Authentication, HTTP routes, the UI and the seed data are outside the engine.
