/** Sending a batch to the broker, and what the book is afterwards. */
module Submission {
  import opened Wrappers
  import opened Sizing
  import opened Planning
  import opened Funding
  import opened FundBatch

  // Whole amounts go out as they are, and everything else at two decimals, whatever the account.
  function OrderQuantity(quantity: real): real {
    if quantity.Floor as real == quantity then quantity else RoundCents(quantity)
  }

  lemma OrderQuantityRounds(quantity: real)
    ensures OrderQuantity(quantity) == RoundCents(quantity)
    ensures OrderQuantity(quantity) == quantity <==> OnGrid(quantity, true)
  {
    RoundCentsFixes(quantity);
    if quantity.Floor as real == quantity {
      assert quantity * 1.0 == quantity;
      WholeIsOnCents(quantity);
    }
  }

  // An order with the quantity the broker is asked for; its dollars stay as they were planned.
  function AsSent(o: Order): Order { o.(quantity := OrderQuantity(o.quantity)) }

  // A broker refuses short sales it cannot lend for, and any other order for reasons of its own.
  datatype Broker = Broker(shortable: Order -> bool, accepts: Order -> bool)
  datatype Standing = Submitted | Rejected | NotShortable
  datatype Placement = Placement(order: Order, standing: Standing)

  function Placed(o: Order, broker: Broker): Placement {
    var sent := AsSent(o);
    if sent.opensShort && !broker.shortable(sent) then Placement(o.(quantity := 0.0), NotShortable)
    else Placement(sent, if broker.accepts(sent) then Submitted else Rejected)
  }

  function PlaceAll(orders: seq<Order>, broker: Broker): seq<Placement> {
    if orders == [] then [] else PlaceAll(orders[..|orders| - 1], broker) + [Placed(orders[|orders| - 1], broker)]
  }

  // The orders that went out, as they went out.
  function Taken(placements: seq<Placement>): seq<Order> {
    if placements == [] then []
    else
      var rest, last := Taken(placements[..|placements| - 1]), placements[|placements| - 1];
      if last.standing.Submitted? then rest + [last.order] else rest
  }

  function Executed(orders: seq<Order>, broker: Broker): seq<Order> { Taken(PlaceAll(orders, broker)) }

  method SubmitPlannedOrders(orders: seq<Order>, broker: Broker) returns (results: seq<Placement>)
    ensures results == PlaceAll(orders, broker)
  {
    results := [];
    for i := 0 to |orders|
      invariant results == PlaceAll(orders[..i], broker)
    {
      assert orders[..i + 1][..i] == orders[..i];
      var o := orders[i];
      var quantity := OrderQuantity(o.quantity);
      if o.opensShort && !broker.shortable(o.(quantity := quantity)) {
        results := results + [Placement(o.(quantity := 0.0), NotShortable)];
        continue;
      }
      var accepted := broker.accepts(o.(quantity := quantity));
      results := results + [Placement(o.(quantity := quantity), if accepted then Submitted else Rejected)];
    }
    assert orders[..|orders|] == orders;
  }

  // The broker takes every order for a symbol.
  ghost predicate Takes(broker: Broker, x: Symbol) {
    forall o: Order :: o.symbol == x ==> broker.accepts(o) && broker.shortable(o)
  }

  lemma ExecutedOneMore(orders: seq<Order>, o: Order, broker: Broker)
    ensures Executed(orders + [o], broker)
            == if Placed(o, broker).standing.Submitted? then Executed(orders, broker) + [AsSent(o)]
              else Executed(orders, broker)
  {
    assert (orders + [o])[..|orders|] == orders;
    var placements := PlaceAll(orders, broker);
    assert (placements + [Placed(o, broker)])[..|placements|] == placements;
  }

  lemma NetOneMore(orders: seq<Order>, o: Order, x: Symbol)
    ensures Net(orders + [o], x) == Net(orders, x) + if o.symbol == x then Signed(o) else 0.0
  {
    assert (orders + [o])[..|orders|] == orders;
  }

  // What a list of orders, as sent, changes a symbol by.
  function SentNet(orders: seq<Order>, x: Symbol): real {
    if orders == [] then 0.0
    else
      var last := orders[|orders| - 1];
      SentNet(orders[..|orders| - 1], x) + if last.symbol == x then Signed(AsSent(last)) else 0.0
  }

  /** For a symbol the broker takes every order of, what goes out is every order at the quantity it is sent
      with. */
  lemma {:induction false} ExecutedAsSent(orders: seq<Order>, x: Symbol, broker: Broker)
    requires Takes(broker, x)
    ensures Net(Executed(orders, broker), x) == SentNet(orders, x)
  {
    if orders != [] {
      var init, last := orders[..|orders| - 1], orders[|orders| - 1];
      ExecutedAsSent(init, x, broker);
      assert orders == init + [last];
      ExecutedOneMore(init, last, broker);
      NetOneMore(Executed(init, broker), AsSent(last), x);
      if last.symbol == x { TakenGoesOut(last, broker); }
    }
  }

  lemma TakenGoesOut(o: Order, broker: Broker)
    requires Takes(broker, o.symbol)
    ensures Placed(o, broker).standing.Submitted?
  {
    assert AsSent(o).symbol == o.symbol;
  }

  lemma {:induction false} SentNetOfBoth(first: seq<Order>, second: seq<Order>, x: Symbol)
    ensures SentNet(first + second, x) == SentNet(first, x) + SentNet(second, x)
  {
    if second == [] {
      assert first + second == first;
    } else {
      assert (first + second)[..|first + second| - 1] == first + second[..|second| - 1];
      SentNetOfBoth(first, second[..|second| - 1], x);
    }
  }

  // Orders that leave a symbol alone.
  ghost predicate Untouched(orders: seq<Order>, x: Symbol) { forall o :: o in orders ==> o.symbol != x }

  lemma {:induction false} SentNetOfNone(orders: seq<Order>, x: Symbol)
    requires Untouched(orders, x)
    ensures SentNet(orders, x) == 0.0
  {
    if orders != [] {
      assert orders[|orders| - 1] in orders;
      SentNetOfNone(orders[..|orders| - 1], x);
    }
  }

  lemma {:induction false} SentNetOfOne(orders: seq<Order>, o: Order)
    requires OnePerSymbol(orders) && o in orders
    ensures SentNet(orders, o.symbol) == Signed(AsSent(o))
  {
    var init, last := orders[..|orders| - 1], orders[|orders| - 1];
    assert forall p :: p in init ==> p.symbol != last.symbol;
    if o == last {
      SentNetOfNone(init, last.symbol);
    } else {
      assert o in init;
      SentNetOfOne(init, o);
    }
  }

  // -- Reaching the target ---------------------------------------------------------------------

  lemma SentMove(current: real, target: real, fractional: bool, sent: real)
    requires var move := Move(current, target, fractional);
             sent == if move > 0.0 then OrderQuantity(move) else -OrderQuantity(-move)
    ensures sent == RoundCents(target - current)
    ensures current + sent == target <==> OnGrid(target - current, true)
  {
    var move := Move(current, target, fractional);
    OrderQuantityRounds(Abs(move));
    RoundCentsOdd(move);
    RoundCentsFixes(target - current);
    if fractional && target >= 0.0 {
      RoundCentsFixes(move);
    }
  }

  /** As sent, an order moves its symbol by the distance to the target rounded to cents, on every account; it
      reaches the target exactly when that distance is on the cent grid. */
  lemma SentLegReachesTarget(symbol: Symbol, targets: Book, s: Setting)
    requires Leg(symbol, targets, s).Some?
    ensures var current := At(s.positions, symbol, 0.0);
            var target, change := At(targets, symbol, current), Signed(AsSent(Leg(symbol, targets, s).value));
            change == RoundCents(target - current) && (current + change == target <==> OnGrid(target - current, true))
  {
    var current := At(s.positions, symbol, 0.0);
    SentMove(current, At(targets, symbol, current), s.fractional, Signed(AsSent(Leg(symbol, targets, s).value)));
  }

  /** As sent, on every account, a sale is marked as opening a short if and only if it leaves the position below
      zero; except where it slips short, or misses the short position it aims at. */
  lemma SentShortExactlyWhenBelowZero(symbol: Symbol, targets: Book, s: Setting)
    requires Leg(symbol, targets, s).Some?
    ensures var current := At(s.positions, symbol, 0.0);
            var target, order := At(targets, symbol, current), Leg(symbol, targets, s).value;
            (order.opensShort <==> order.side.Sell? && current + Signed(AsSent(order)) < 0.0)
            <==> !SlipsShort(current, target) && !MissesShort(current, target)
  {
    var current := At(s.positions, symbol, 0.0);
    var target := At(targets, symbol, current);
    SentLegReachesTarget(symbol, targets, s);
    MoveOrPast(current, target, s.fractional);
    assert target - current == -(current - target);
    RoundCentsOdd(current - target);
    SellsWhenAbove(symbol, targets, s);
  }

  lemma SellsWhenAbove(symbol: Symbol, targets: Book, s: Setting)
    requires Leg(symbol, targets, s).Some?
    ensures var current := At(s.positions, symbol, 0.0);
            Leg(symbol, targets, s).value.side.Sell? <==> At(targets, symbol, current) < current
  {
    var current := At(s.positions, symbol, 0.0);
    RoundCentsOdd(At(targets, symbol, current) - current);
    RoundCentsOdd(current - At(targets, symbol, current));
    assert At(targets, symbol, current) - current == -(current - At(targets, symbol, current));
  }

  lemma PastWithinACent(current: real, target: real)
    ensures Past(current, target) > -0.01
    ensures OnGrid(current - target, true) ==> Past(current, target) == 0.0
  {
    RoundCentsFixes(current - target);
    var n := RoundHalfEven((current - target) * 100.0);
    assert RoundCents(current - target) * 100.0 == n as real;
  }

  lemma NegativeIsWhole(intent: Intent, s: Setting)
    requires Sized(intent, s).Some? && Sized(intent, s).value < 0.0
    ensures OnGrid(Sized(intent, s).value, false) && Sized(intent, s).value <= -1.0
  {
    var raw := RawShares(intent, At(s.prices, intent.symbol, 0.0), s.equity);
    RoundSharesTowardZero(raw, s.fractional && raw >= 0.0);
    assert raw < 0.0;
    NegativeWhole(Sized(intent, s).value);
  }

  lemma NegativeWhole(x: real)
    requires OnGrid(x, false) && x < 0.0
    ensures x <= -1.0
  {
    assert x * 1.0 == x;
  }

  /** Short positions and sales come in whole shares from intents, so what they ask for slips short at most. */
  lemma IntentsMissNoShort(intents: seq<Intent>, mode: string, s: Setting, symbol: Symbol)
    requires mode in [MODE_TARGET, MODE_INCREMENTAL]
    ensures var current := At(s.positions, symbol, 0.0);
            !MissesShort(current, At(Targets(intents, mode, s), symbol, current))
  {
    var current := At(s.positions, symbol, 0.0);
    var target := At(Targets(intents, mode, s), symbol, current);
    TargetDecidedByLastIntent(intents, mode, s, symbol);
    PastWithinACent(current, target);
    if target < current && target < 0.0 && Deciding(intents, symbol, s).Some? {
      var intent := Deciding(intents, symbol, s).value;
      NegativeIsWhole(intent, s);
      if mode == MODE_INCREMENTAL {
        var shares := Sized(intent, s).value;
        WholeIsOnCents(shares);
        GridNegated(shares, true);
        assert current - target == -shares;
      }
    }
  }

  /** So on a whole-share account too, closing 0.006 shares sells 0.01; and no broker is asked whether it lends
      the difference. */
  lemma UnmarkedShortIsSent(s: Setting, targets: Book, broker: Broker)
    requires s.positions == map["X" := 0.006] && s.prices == map["X" := 100.0] && !s.fractional
             && targets == map["X" := 0.0]
    ensures var leg := Leg("X", targets, s);
            && leg.Some? && leg.value.quantity == 0.006 && !leg.value.opensShort
            && 0.006 + Signed(AsSent(leg.value)) == -0.004
            && !Placed(leg.value, broker).standing.NotShortable?
  {
    assert Move(0.006, 0.0, false) == -0.006;
    assert RoundHalfEven(0.6) == 1;
    assert OrderQuantity(0.006) == 0.01;
  }

  /** Applying the planned orders as they are sent moves every symbol that got one onto its target exactly when
      the distance is on the cent grid, whatever the account; the others stay, for a stated reason. */
  lemma SentOrdersReachTargets(targets: Book, s: Setting, symbol: Symbol, broker: Broker)
    requires Takes(broker, symbol)
    ensures var current := At(s.positions, symbol, 0.0);
            var target := At(targets, symbol, current);
            var after := current + Net(Executed(Planned(targets, s), broker), symbol);
            if exists o :: o in Planned(targets, s) && o.symbol == symbol then
              after == target <==> OnGrid(target - current, true)
            else
              after == current && MayStay(symbol, current, target, s)
  {
    var orders := Planned(targets, s);
    ExecutedAsSent(orders, symbol, broker);
    PlannedIsTheLegs(targets, s);
    LegNamesItsSymbol(symbol, targets, s);
    match Leg(symbol, targets, s)
    case Some(o) =>
      assert o in orders && o.symbol == symbol;
      SentNetOfOne(orders, o);
      SentLegReachesTarget(symbol, targets, s);
    case None =>
      SentNetOfNone(orders, symbol);
      LegReachesTarget(symbol, targets, s);
  }

  // -- The cash sleeve, as sent ----------------------------------------------------------------

  // Sells a holding out, or a number of its shares on the cent grid.
  ghost predicate SellsOutOrCents(raise: (Holding, real) -> Quote) {
    forall h: Holding, needed {:trigger raise(h, needed)} :: h.price > 0.0 ==>
      raise(h, needed).quantity == h.shares || OnGrid(raise(h, needed).quantity, true)
  }

  lemma RaisingSellsOutOrCents(fractional: bool)
    ensures SellsOutOrCents(Raising(fractional))
  {
    forall h: Holding, needed | h.price > 0.0
      ensures Raising(fractional)(h, needed).quantity == h.shares
              || OnGrid(Raising(fractional)(h, needed).quantity, true)
    {
      SharesOnCents(needed / h.price, fractional);
    }
  }

  // A covered sale that sells its holding out, or a number of its shares on the cent grid.
  ghost predicate OutOrCents(o: Order, h: Holding) {
    Covered(o, h) && (o.quantity == h.shares || OnGrid(o.quantity, true))
  }

  lemma {:induction false} LiquidateOutOrCents(holdings: seq<Holding>, traded: set<Symbol>, needed: real,
                                               raise: (Holding, real) -> Quote, o: Order)
    requires RaisesEnough(raise) && SellsOutOrCents(raise) && o in Liquidate(holdings, traded, needed, raise).legs
    ensures exists h :: h in holdings && Eligible(h, traded) && OutOrCents(o, h)
  {
    var init, last := holdings[..|holdings| - 1], holdings[|holdings| - 1];
    var so_far := Liquidate(init, traded, needed, raise);
    Tapped(so_far, last, traded, raise);
    if o in so_far.legs {
      LiquidateOutOrCents(init, traded, needed, raise, o);
      var h :| h in init && Eligible(h, traded) && OutOrCents(o, h);
      assert h in holdings;
    } else {
      var q := raise(last, so_far.needed);
      assert last in holdings && OutOrCents(Sale(last, q), last);
    }
  }

  lemma SentBeyond(o: Order, h: Holding)
    requires OutOrCents(o, h)
    ensures AsSent(o).quantity > h.shares <==> o.quantity == h.shares && RoundsUp(h.shares)
  {
    OrderQuantityRounds(o.quantity);
    RoundCentsUp(h.shares);
  }

  lemma SleeveOutOrCents(planned: seq<Order>, a: Account, o: Order)
    requires o in Sleeve(planned, a)
    ensures exists h :: h in a.cash && Eligible(h, Symbols(planned)) && OutOrCents(o, h)
  {
    RaisingRaisesEnough(a.fractional);
    RaisingSellsOutOrCents(a.fractional);
    var shortfall := Dollars(Only(planned, Buy)) - Spendable(a, Only(planned, Sell));
    LiquidateOutOrCents(a.cash, Symbols(planned), Padded(shortfall), Raising(a.fractional), o);
  }

  /** Every sale from the sleeve is of an eligible cash equivalent; as sent, it sells more than is held exactly
      when it sells the holding out and that rounds up. */
  lemma SleeveSentWithinHolding(planned: seq<Order>, a: Account, o: Order)
    requires o in Sleeve(planned, a)
    ensures exists h :: h in a.cash && Eligible(h, Symbols(planned)) && Covered(o, h)
              && (AsSent(o).quantity > h.shares <==> o.quantity == h.shares && RoundsUp(h.shares))
  {
    SleeveOutOrCents(planned, a, o);
    var h :| h in a.cash && Eligible(h, Symbols(planned)) && OutOrCents(o, h);
    SentBeyond(o, h);
  }

  lemma RaisedInFull(h: Holding, fractional: bool)
    requires h == Holding("CASH", 100.0, 0.006)
    ensures Raised(h, 50.25, fractional) == Quote(0.006, 0.6)
  {
    RoundUpSharesCovers(50.25 / 100.0, fractional);
  }

  lemma LoneBuyShort(a: Account, buy: Order)
    requires a.buyingPower == 0.0 && a.reserve == 0.0 && buy.side == Buy && buy.tradeDollars == 50.0
    ensures Only([buy], Buy) == [buy] && Only([buy], Sell) == [] && Symbols([buy]) == {buy.symbol}
    ensures Dollars([buy]) == 50.0 && Spendable(a, []) == 0.0 && Padded(50.0) == 50.25
  {
    assert [buy][..0] == [];
  }

  lemma LoneHolding(h: Holding, traded: set<Symbol>, needed: real, raise: (Holding, real) -> Quote)
    ensures Liquidate([h], traded, needed, raise) == Tap(Liquidation(needed, []), h, traded, raise)
  {
    assert [h][..0] == [];
  }

  /** So a cash equivalent of 0.006 shares that is sold out for a batch goes out as 0.01. */
  lemma SleeveOversellsOffTheGrid(a: Account, buy: Order)
    requires a.cash == [Holding("CASH", 100.0, 0.006)] && a.buyingPower == 0.0 && a.reserve == 0.0
    requires buy.symbol != "CASH" && buy.side == Buy && buy.tradeDollars == 50.0
    ensures Sleeve([buy], a) == [Order("CASH", Sell, 0.006, 0.0, 0.006, 0.6, 100.0, false)]
    ensures OrderQuantity(0.006) == 0.01
  {
    var h := a.cash[0];
    LoneBuyShort(a, buy);
    RaisedInFull(h, a.fractional);
    LoneHolding(h, {buy.symbol}, 50.25, Raising(a.fractional));
    assert Sale(h, Quote(0.006, 0.6)) == Order("CASH", Sell, 0.006, 0.0, 0.006, 0.6, 100.0, false);
    SixThousandthsSent();
  }

  lemma SixThousandthsSent()
    ensures OrderQuantity(0.006) == 0.01
  {
    assert RoundHalfEven(0.6) == 1;
  }

  // -- Batches on the cent grid --------------------------------------------------------------------

  ghost predicate OnCents(orders: seq<Order>) { forall o :: o in orders ==> OnGrid(o.quantity, true) }

  function AllAsSent(orders: seq<Order>): seq<Order> {
    seq(|orders|, i requires 0 <= i < |orders| => AsSent(orders[i]))
  }

  /** A batch goes out at its funded quantities exactly when they are all on the cent grid. */
  lemma SentAsFunded(orders: seq<Order>)
    ensures AllAsSent(orders) == orders <==> OnCents(orders)
  {
    forall i | 0 <= i < |orders| ensures AsSent(orders[i]) == orders[i] <==> OnGrid(orders[i].quantity, true) {
      OrderQuantityRounds(orders[i].quantity);
    }
    if AllAsSent(orders) == orders {
      forall o | o in orders ensures OnGrid(o.quantity, true) {
        var i :| 0 <= i < |orders| && orders[i] == o;
        assert AllAsSent(orders)[i] == AsSent(orders[i]);
      }
    } else {
      var i :| 0 <= i < |orders| && AllAsSent(orders)[i] != orders[i];
      assert orders[i] in orders;
    }
  }

  // An order as it is sent, at the dollars that quantity comes to at its planned price.
  function Billed(o: Order): Order { AsSent(o).(tradeDollars := Times(OrderQuantity(o.quantity), o.price)) }

  function AllBilled(orders: seq<Order>): seq<Order> {
    seq(|orders|, i requires 0 <= i < |orders| => Billed(orders[i]))
  }

  // What rounding an order to cents can cost: half a cent of a share, unless it brings no cash or stays as it is.
  function RoundingCost(o: Order): real {
    if (o.side.Sell? && o.opensShort) || OnGrid(o.quantity, true) then 0.0 else 0.005 * o.price
  }

  function RoundingCosts(orders: seq<Order>): real {
    if orders == [] then 0.0 else RoundingCosts(orders[..|orders| - 1]) + RoundingCost(orders[|orders| - 1])
  }

  lemma HalfACent(quantity: real, price: real)
    requires price > 0.0
    ensures Abs(Times(OrderQuantity(quantity), price) - quantity * price) <= 0.005 * price
  {
    OrderQuantityRounds(quantity);
    var off := RoundCents(quantity) - quantity;
    var n := RoundHalfEven(quantity * 100.0);
    assert RoundCents(quantity) * 100.0 == n as real;
    assert -0.005 <= off <= 0.005;
    assert Times(OrderQuantity(quantity), price) - quantity * price == Times(off, price);
    WithinHalf(off, price);
  }

  lemma WithinHalf(off: real, price: real)
    requires price > 0.0 && -0.005 <= off <= 0.005
    ensures Abs(Times(off, price)) <= 0.005 * price
  {
    NotNegative(0.005 - off, price);
    NotNegative(0.005 + off, price);
    assert Times(0.005 - off, price) == 0.005 * price - Times(off, price);
    assert Times(0.005 + off, price) == 0.005 * price + Times(off, price);
  }

  lemma NotNegative(x: real, y: real)
    requires x >= 0.0 && y >= 0.0
    ensures Times(x, y) >= 0.0
  {
  }

  lemma BilledFlow(o: Order)
    requires WellPriced(o)
    ensures Abs(Flow(Billed(o)) - Flow(o)) <= RoundingCost(o)
  {
    OrderQuantityRounds(o.quantity);
    HalfACent(o.quantity, o.price);
  }

  /** Sending at two decimals moves the cash a batch leaves by at most half a cent of a share, at its price, for
      each order off the cent grid. */
  lemma {:induction false} BilledWithinRounding(start: real, orders: seq<Order>)
    requires AllWellPriced(orders)
    ensures Abs(Cash(start, AllBilled(orders)) - Cash(start, orders)) <= RoundingCosts(orders)
  {
    if orders != [] {
      var init, last := orders[..|orders| - 1], orders[|orders| - 1];
      assert AllBilled(orders)[..|orders| - 1] == AllBilled(init);
      assert last in orders && forall o :: o in init ==> o in orders;
      BilledWithinRounding(start, init);
      BilledFlow(last);
    }
  }

  /** Paying for the batch at the quantities it is sent with never takes cash below the bound its planning keeps,
      at any point, by more than half a cent of a share of each order so far that is off the cent grid. */
  lemma SentCashNearReserve(planned: seq<Order>, a: Account, policy: Policy, i: nat)
    requires AllWellPriced(planned) && i <= |Fund(planned, a, policy).fundable|
    ensures var fundable := Fund(planned, a, policy).fundable;
            && AllBilled(fundable)[..i] == AllBilled(fundable[..i])
            && Cash(a.buyingPower, AllBilled(fundable[..i]))
               >= Min(a.buyingPower, Max(a.reserve, 0.0)) - FUNDING_EPSILON - RoundingCosts(fundable[..i])
  {
    PlannedSellsSurvive(planned, a, policy);
    CashNeverBelowReserve(planned, a, policy, i);
    FirstBilled(Fund(planned, a, policy).fundable, i, a.buyingPower);
  }

  lemma FirstBilled(orders: seq<Order>, i: nat, start: real)
    requires AllWellPriced(orders) && i <= |orders|
    ensures AllBilled(orders)[..i] == AllBilled(orders[..i])
    ensures Cash(start, AllBilled(orders[..i])) >= Cash(start, orders[..i]) - RoundingCosts(orders[..i])
  {
    assert forall o :: o in orders[..i] ==> o in orders;
    BilledWithinRounding(start, orders[..i]);
  }

  ghost predicate BookOnCents(book: Book) { forall x :: x in book ==> OnGrid(book[x], true) }

  lemma ZeroOnCents()
    ensures OnGrid(0.0, true)
  {
  }

  lemma TargetsOnCents(intents: seq<Intent>, mode: string, s: Setting)
    requires mode in [MODE_TARGET, MODE_INCREMENTAL] && BookOnCents(s.positions)
    ensures BookOnCents(Targets(intents, mode, s))
  {
    forall x | x in Targets(intents, mode, s) ensures OnGrid(Targets(intents, mode, s)[x], true) {
      TargetDecidedByLastIntent(intents, mode, s, x);
      ZeroOnCents();
      if Deciding(intents, x, s).Some? {
        SizedOnCents(Deciding(intents, x, s).value, s);
        GridAdds(At(s.positions, x, 0.0), Sized(Deciding(intents, x, s).value, s).value, true);
      }
    }
  }

  lemma SizedOnCents(intent: Intent, s: Setting)
    requires Sized(intent, s).Some?
    ensures OnGrid(Sized(intent, s).value, true)
  {
    var raw := RawShares(intent, At(s.prices, intent.symbol, 0.0), s.equity);
    SharesOnCents(raw, s.fractional && raw >= 0.0);
  }

  /** From positions on the cent grid, every planned order is on it. */
  lemma PlannedOnCents(targets: Book, s: Setting)
    requires BookOnCents(s.positions) && BookOnCents(targets)
    ensures OnCents(Planned(targets, s))
  {
    PlannedIsTheLegs(targets, s);
    forall o | o in Planned(targets, s) ensures OnGrid(o.quantity, true) {
      LegOnCents(o, targets, s);
    }
  }

  lemma LegOnCents(o: Order, targets: Book, s: Setting)
    requires BookOnCents(s.positions) && BookOnCents(targets) && Leg(o.symbol, targets, s) == Some(o)
    ensures OnGrid(o.quantity, true)
  {
    var current := At(s.positions, o.symbol, 0.0);
    var target := At(targets, o.symbol, current);
    ZeroOnCents();
    GridCloses(target, current, true);
    RoundCentsFixes(target - current);
    GridNegated(Move(current, target, s.fractional), true);
  }

  ghost predicate RaisesOnCents(raise: (Holding, real) -> Quote) {
    forall h: Holding, needed {:trigger raise(h, needed)} :: OnGrid(h.shares, true) ==>
      OnGrid(raise(h, needed).quantity, true)
  }

  lemma RaisingOnCents(fractional: bool)
    ensures RaisesOnCents(Raising(fractional))
  {
    forall h: Holding, needed | OnGrid(h.shares, true) ensures OnGrid(Raising(fractional)(h, needed).quantity, true) {
      ZeroOnCents();
      if h.price > 0.0 { SharesOnCents(needed / h.price, fractional); }
    }
  }

  lemma {:induction false} LiquidateOnCents(holdings: seq<Holding>, traded: set<Symbol>, needed: real,
                                            raise: (Holding, real) -> Quote)
    requires RaisesOnCents(raise) && forall h :: h in holdings ==> OnGrid(h.shares, true)
    ensures OnCents(Liquidate(holdings, traded, needed, raise).legs)
  {
    if holdings != [] {
      var init, last := holdings[..|holdings| - 1], holdings[|holdings| - 1];
      assert last in holdings && forall h :: h in init ==> h in holdings;
      LiquidateOnCents(init, traded, needed, raise);
      assert OnGrid(raise(last, Liquidate(init, traded, needed, raise).needed).quantity, true);
    }
  }

  ghost predicate QuotesOnCents(quote: (Order, real) -> Quote) {
    forall o: Order, remaining {:trigger quote(o, remaining)} :: OnGrid(quote(o, remaining).quantity, true)
  }

  ghost predicate RoundsOnCents(round: real -> real) { forall x :: OnGrid(round(x), true) }

  lemma ToSharesOnCents(fractional: bool)
    ensures RoundsOnCents(ToShares(fractional))
  {
    forall x ensures OnGrid(ToShares(fractional)(x), true) {
      SharesOnCents(x, fractional);
    }
  }

  lemma QuotingOnCents(scale: real, round: real -> real)
    requires RoundsOnCents(round)
    ensures QuotesOnCents(Quoting(scale, round))
  {
    forall o: Order, remaining ensures OnGrid(Quoting(scale, round)(o, remaining).quantity, true) {
      RationedOnCents(o.price, Scaled(o, scale, round), remaining, round);
    }
  }

  lemma RationedOnCents(price: real, wanted: real, remaining: real, round: real -> real)
    requires RoundsOnCents(round) && OnGrid(wanted, true)
    ensures OnGrid(Rationed(price, wanted, remaining, round), true)
  {
  }

  lemma {:induction false} FitOnCents(queue: seq<Order>, quote: (Order, real) -> Quote, budget: real, minDollars: real)
    requires QuotesOnCents(quote)
    ensures forall slip :: slip in Fit(queue, quote, budget, minDollars).funded ==> OnGrid(slip.quote.quantity, true)
  {
    if queue != [] {
      FitOnCents(queue[..|queue| - 1], quote, budget, minDollars);
      var so_far := Fit(queue[..|queue| - 1], quote, budget, minDollars);
      assert OnGrid(quote(queue[|queue| - 1], so_far.remaining).quantity, true);
    }
  }

  lemma SentBuysOnCents(planned: seq<Order>, a: Account, policy: Policy)
    requires OnCents(planned)
    ensures OnCents(Sent(planned, a, policy))
  {
    OnlyKeepsSide(planned, Buy);
    var buys, budget := Only(planned, Buy), Budget(planned, a);
    var scale := Share(buys, budget, policy);
    ToSharesOnCents(a.fractional);
    QuotingOnCents(scale, ToShares(a.fractional));
    FitOnCents(Queue(buys, policy), Quoting(scale, ToShares(a.fractional)), budget, a.minDollars);
    forall o | o in Sent(planned, a, policy) ensures OnGrid(o.quantity, true) {
      if !Fits(planned, a) {
        FilledFromSlips(CutDown(planned, a, policy).funded, o);
      }
    }
  }

  /** From a plan and cash equivalents on the cent grid, the whole funded batch is on it. */
  lemma FundedOnCents(planned: seq<Order>, a: Account, policy: Policy)
    requires OnCents(planned) && forall h :: h in a.cash ==> OnGrid(h.shares, true)
    ensures OnCents(Fund(planned, a, policy).fundable)
  {
    RaisingOnCents(a.fractional);
    var shortfall := Dollars(Only(planned, Buy)) - Spendable(a, Only(planned, Sell));
    LiquidateOnCents(a.cash, Symbols(planned), Padded(shortfall), Raising(a.fractional));
    OnlyKeepsSide(planned, Sell);
    SentBuysOnCents(planned, a, policy);
  }
}
