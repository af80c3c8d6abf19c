/** A worked example on concrete ledgers: two users each holding $10,000 trade
    on a fresh market quoted 50/50. The first buys 10 yes at 60 cents and
    rests; the second buys 10 no at 40 cents, which crosses it. */
module Scenarios {
  import opened Types
  import opened Priority
  import opened Matching
  import opened OrderBook

  const Info := MarketInfo("t", "d", "c", "s", "r")
  const Start := Ledger([User(1000000), User(1000000)], [Market(Info, MarketOpen, 50, 50, 0)], [], [], [])
  const YesOrder := Order(0, 0, Yes, Limit, 60, 10, 0, Open)
  const NoOrder := Order(1, 0, No, Limit, 40, 10, 0, Open)
  const AfterYes := Ledger([User(999400), User(1000000)], [Market(Info, MarketOpen, 50, 50, 0)], [YesOrder], [], [])
  const Admitted := Ledger([User(999400), User(999600)], [Market(Info, MarketOpen, 50, 50, 0)], [YesOrder, NoOrder], [], [])

  /** Placing the yes order reserves 60 * 10 cents of its owner's balance. */
  lemma FirstAdmitted(L: Ledger)
    requires L == Start
    ensures Admit(L, 0, 0, Yes, Limit, 60, 10) == AfterYes
  {
    var A := Admit(L, 0, 0, Yes, Limit, 60, 10);
    assert A.orders == [YesOrder];
    assert A.users[0].balance == 999400 && A.users[1].balance == 1000000;
    assert A.users == [User(999400), User(1000000)];
  }

  /** With nothing on the no side, the yes order rests without trading. */
  lemma FirstRests(L: Ledger)
    requires L == Start
    ensures PlaceOrder(L, 0, 0, Yes, Limit, 60, 10.0) == Ok(Placement(AfterYes, 0, []))
  {
    FirstAdmitted(L);
    assert Candidates(AfterYes, 0) == [];
    Placed(L, 0, 0, Yes, Limit, 60, 10.0);
  }

  lemma SecondAdmitted(L: Ledger)
    requires L == AfterYes
    ensures Admit(L, 1, 0, No, Limit, 40, 10) == Admitted
  {
    SecondDebited(L);
    SecondQueued(L);
  }

  lemma SecondQueued(L: Ledger)
    requires L == AfterYes
    ensures var A := Admit(L, 1, 0, No, Limit, 40, 10);
      A.orders == [YesOrder, NoOrder] && A.markets == L.markets && A.trades == [] && A.positions == []
  {
    Appended(L.orders, NoOrder);
  }

  lemma AfterYesValid(L: Ledger)
    requires L == AfterYes
    ensures Valid(L)
  {
    assert OrderWF(L.orders[0], |L.users|, |L.markets|);
    assert MarketWF(L.markets[0]);
  }

  lemma Appended(os: seq<Order>, o: Order)
    requires os == [YesOrder]
    ensures os + [o] == [YesOrder, o]
  {
  }

  lemma SecondDebited(L: Ledger)
    requires L == AfterYes
    ensures Admit(L, 1, 0, No, Limit, 40, 10).users == [User(999400), User(999600)]
  {
    var A := Admit(L, 1, 0, No, Limit, 40, 10);
    assert A.users[0].balance == 999400 && A.users[1].balance == 999600;
  }

  /** The resting yes at 60 crosses a no at 40, since 60 >= 100 - 40. */
  lemma SecondCandidates()
    ensures Candidates(Admitted, 1) == [0]
  {
    assert Queue(Admitted.orders, 0, Yes, 60, 1) == [0];
  }

  lemma SecondMatches(A: Ledger)
    requires A == Admitted
    ensures MatchLoop(A, 1, [0], 10).1 == [Trade(0, 1, 0, 60, 10)]
  {
    MatchStep(A, 1, [0], 10);
  }

  /** The no order fills completely against the resting yes, at its price. */
  lemma CrossingPair(L: Ledger)
    requires L == AfterYes
    ensures var r := PlaceOrder(L, 1, 0, No, Limit, 40, 10.0);
            && r.Ok?
            && r.value.trades == [Trade(0, 1, 0, 60, 10)]
  {
    SecondAdmitted(L);
    SecondCandidates();
    SecondMatches(Admitted);
    Placed(L, 1, 0, No, Limit, 40, 10.0);
  }

  /** After the trade the market quotes 60/40, its volume is the yes-price
      notional, and each buyer paid its own quote per share. */
  lemma CrossingPairPrices(L: Ledger)
    requires L == AfterYes
    ensures var r := PlaceOrder(L, 1, 0, No, Limit, 40, 10.0);
            && r.Ok?
            && r.value.ledger.markets[0] == Market(Info, MarketOpen, 60, 40, 600)
            && r.value.ledger.users[0].balance == 999400
            && r.value.ledger.users[1].balance == 999600
  {
    CrossingPairMarket(L);
    CrossingPairPaid(L);
  }

  lemma CrossingPairMarket(L: Ledger)
    requires L == AfterYes
    ensures var r := PlaceOrder(L, 1, 0, No, Limit, 40, 10.0);
            r.Ok? && r.value.ledger.markets[0] == Market(Info, MarketOpen, 60, 40, 600)
  {
    CrossingPair(L);
    AfterYesValid(L);
    PlaceOrderMarket(L, 1, 0, No, Limit, 40, 10.0);
    assert Notional([Trade(0, 1, 0, 60, 10)]) == 600;
  }

  lemma CrossingPairPaid(L: Ledger)
    requires L == AfterYes
    ensures var r := PlaceOrder(L, 1, 0, No, Limit, 40, 10.0);
            r.Ok? && r.value.ledger.users[0].balance == 999400 && r.value.ledger.users[1].balance == 999600
  {
    CrossingPair(L);
    AfterYesValid(L);
    PlaceOrderBalances(L, 1, 0, No, Limit, 40, 10.0);
    var ts := [Trade(0, 1, 0, 60, 10)];
    assert Rebate(ts, No, 40) == 0;
    assert Traded(ts) == 10;
  }
}
