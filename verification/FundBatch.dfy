/** Funding a whole batch: selling cash equivalents to cover a shortfall, then fitting the buys. */
module FundBatch {
  import opened Wrappers
  import opened Sizing
  import opened Planning
  import opened Funding

  // -- Liquidating cash equivalents ------------------------------------------------------------

  // Holdings the batch already trades are left out: their proceeds count already, or they are being bought.
  predicate Eligible(h: Holding, traded: set<Symbol>) {
    h.symbol !in traded && h.price > 0.0 && h.shares > SHARE_EPSILON
  }

  function Symbols(orders: seq<Order>): set<Symbol> {
    set o | o in orders :: o.symbol
  }

  // Enough of one holding to raise what is needed, rounded up, or all of it.
  function Raised(h: Holding, needed: real, fractional: bool): Quote {
    var quantity := if h.price > 0.0 then Min(h.shares, RoundUpShares(needed / h.price, fractional)) else 0.0;
    Quote(quantity, quantity * h.price)
  }

  function Raising(fractional: bool): (Holding, real) -> Quote { (h, needed) => Raised(h, needed, fractional) }

  function Sale(h: Holding, q: Quote): Order {
    Order(h.symbol, Sell, q.quantity, h.shares - q.quantity, h.shares, q.cost, h.price, false)
  }

  function Tap(so_far: Liquidation, h: Holding, traded: set<Symbol>, raise: (Holding, real) -> Quote): Liquidation {
    if so_far.needed <= FUNDING_EPSILON || !Eligible(h, traded) then so_far
    else
      var q := raise(h, so_far.needed);
      if q.quantity <= SHARE_EPSILON then so_far
      else Liquidation(so_far.needed - q.cost, so_far.legs + [Sale(h, q)])
  }

  function Liquidate(holdings: seq<Holding>, traded: set<Symbol>, needed: real,
                     raise: (Holding, real) -> Quote): Liquidation {
    if holdings == [] then Liquidation(needed, [])
    else Tap(Liquidate(holdings[..|holdings| - 1], traded, needed, raise), holdings[|holdings| - 1], traded, raise)
  }

  function Padded(shortfall: real): real { Max(shortfall, 0.0) * (1.0 + LIQUIDATION_PAD) }

  // What selling cash equivalents comes to for a batch that is short of money.
  function Freed(shortfall: real, cash: seq<Holding>, planned: seq<Order>, fractional: bool): Liquidation {
    Liquidate(cash, Symbols(planned), Padded(shortfall), Raising(fractional))
  }

  lemma {:induction false} LiquidateStops(holdings: seq<Holding>, i: nat, traded: set<Symbol>, needed: real,
                                          raise: (Holding, real) -> Quote)
    requires i <= |holdings| && Liquidate(holdings[..i], traded, needed, raise).needed <= FUNDING_EPSILON
    ensures Liquidate(holdings, traded, needed, raise) == Liquidate(holdings[..i], traded, needed, raise)
  {
    if i < |holdings| {
      assert holdings[..|holdings| - 1][..i] == holdings[..i];
      LiquidateStops(holdings[..|holdings| - 1], i, traded, needed, raise);
    } else {
      assert holdings[..i] == holdings;
    }
  }

  method LiquidationLegs(shortfall: real, holdings: seq<Holding>, planned: seq<Order>, fractional: bool)
    returns (legs: seq<Order>)
    ensures legs == Freed(shortfall, holdings, planned, fractional).legs
  {
    var traded := Symbols(planned);
    var raise := Raising(fractional);
    var left := Padded(shortfall);
    legs := [];
    for i := 0 to |holdings|
      invariant Liquidation(left, legs) == Liquidate(holdings[..i], traded, Padded(shortfall), raise)
    {
      if left <= FUNDING_EPSILON {
        LiquidateStops(holdings, i, traded, Padded(shortfall), raise);
        return;
      }
      assert holdings[..i + 1][..i] == holdings[..i];
      var h := holdings[i];
      if !Eligible(h, traded) {
        continue;
      }
      var q := raise(h, left);
      if q.quantity <= SHARE_EPSILON {
        continue;
      }
      legs := legs + [Sale(h, q)];
      left := left - q.cost;
    }
    assert holdings[..|holdings|] == holdings;
  }

  // A sale of part or all of one holding.
  ghost predicate Covered(o: Order, h: Holding) {
    && o.symbol == h.symbol && o.side == Sell && !o.opensShort && o.price == h.price
    && SHARE_EPSILON < o.quantity <= h.shares && WellPriced(o)
    && o.currentShares == h.shares && o.targetShares == h.shares - o.quantity
  }

  // A sale is worth making, is covered by the holding, and either sells it out or raises enough.
  ghost predicate RaisesEnough(raise: (Holding, real) -> Quote) {
    forall h: Holding, needed {:trigger raise(h, needed)} ::
      h.price > 0.0 && h.shares > SHARE_EPSILON && needed > 0.0 ==> Worthwhile(h, needed, raise(h, needed))
  }

  ghost predicate Worthwhile(h: Holding, needed: real, q: Quote) {
    Covered(Sale(h, q), h) && (q.quantity == h.shares || q.cost >= needed)
  }

  lemma CoversNeed(needed: real, price: real, quantity: real)
    requires price > 0.0 && needed / price <= quantity
    ensures quantity * price >= needed
  {
    assert (needed / price) * price == needed;
    ProductInOrder(needed / price, quantity, price);
  }

  lemma PositiveQuotient(needed: real, price: real)
    requires price > 0.0 && needed > 0.0
    ensures needed / price > 0.0
  {
  }

  lemma RaisedEnough(h: Holding, needed: real, fractional: bool)
    requires h.price > 0.0 && h.shares > SHARE_EPSILON && needed > 0.0
    ensures Worthwhile(h, needed, Raised(h, needed, fractional))
  {
    PositiveQuotient(needed, h.price);
    var up := RoundUpShares(needed / h.price, fractional);
    RoundUpSharesCovers(needed / h.price, fractional);
    CoversNeed(needed, h.price, up);
  }

  lemma RaisingRaisesEnough(fractional: bool)
    ensures RaisesEnough(Raising(fractional))
  {
    forall h: Holding, needed | h.price > 0.0 && h.shares > SHARE_EPSILON && needed > 0.0
      ensures Worthwhile(h, needed, Raising(fractional)(h, needed))
    {
      RaisedEnough(h, needed, fractional);
    }
  }

  // One holding: left alone for a reason, or sold for what is needed as far as it goes.
  lemma Tapped(so_far: Liquidation, h: Holding, traded: set<Symbol>, raise: (Holding, real) -> Quote)
    requires RaisesEnough(raise)
    ensures var next := Tap(so_far, h, traded, raise);
            if so_far.needed <= FUNDING_EPSILON || !Eligible(h, traded) then next == so_far
            else
              var sale := Sale(h, raise(h, so_far.needed));
              && next.legs == so_far.legs + [sale] && next.needed == so_far.needed - sale.tradeDollars
              && Covered(sale, h) && (sale.quantity == h.shares || next.needed <= 0.0)
  {
    if so_far.needed > FUNDING_EPSILON && Eligible(h, traded) {
      assert Worthwhile(h, so_far.needed, raise(h, so_far.needed));
    }
  }

  lemma DollarsAppended(orders: seq<Order>, o: Order)
    ensures Dollars(orders + [o]) == Dollars(orders) + o.tradeDollars
  {
    assert (orders + [o])[..|orders|] == orders;
  }

  /** What liquidating raised and what is still needed add up to what was needed. */
  lemma {:induction false} LiquidateConserves(holdings: seq<Holding>, traded: set<Symbol>, needed: real,
                                              raise: (Holding, real) -> Quote)
    requires RaisesEnough(raise)
    ensures var l := Liquidate(holdings, traded, needed, raise); Dollars(l.legs) + l.needed == needed
  {
    if holdings != [] {
      var init, last := holdings[..|holdings| - 1], holdings[|holdings| - 1];
      LiquidateConserves(init, traded, needed, raise);
      var so_far := Liquidate(init, traded, needed, raise);
      Tapped(so_far, last, traded, raise);
      DollarsAppended(so_far.legs, Sale(last, raise(last, so_far.needed)));
    }
  }

  // The whole holding is among the legs.
  ghost predicate SoldOut(h: Holding, legs: seq<Order>) {
    exists o :: o in legs && o.symbol == h.symbol && o.quantity == h.shares
  }

  /** Liquidating stops short of what is needed, by more than the funding slack, only when every eligible
      cash equivalent is sold out. */
  lemma {:induction false} LiquidateRaisesOrSellsOut(holdings: seq<Holding>, traded: set<Symbol>, needed: real,
                                                     raise: (Holding, real) -> Quote, h: Holding)
    requires RaisesEnough(raise) && h in holdings && Eligible(h, traded)
    ensures var l := Liquidate(holdings, traded, needed, raise); l.needed <= FUNDING_EPSILON || SoldOut(h, l.legs)
  {
    var init, last := holdings[..|holdings| - 1], holdings[|holdings| - 1];
    var so_far := Liquidate(init, traded, needed, raise);
    Tapped(so_far, last, traded, raise);
    var sale := Sale(last, raise(last, so_far.needed));
    if h == last {
      assert so_far.needed > FUNDING_EPSILON ==> sale in so_far.legs + [sale] && sale.symbol == h.symbol;
    } else {
      assert h in init;
      LiquidateRaisesOrSellsOut(init, traded, needed, raise, h);
      if SoldOut(h, so_far.legs) {
        var o :| o in so_far.legs && o.symbol == h.symbol && o.quantity == h.shares;
        assert o in so_far.legs + [sale];
      }
    }
  }

  /** Every sale is of a cash equivalent the batch does not trade, and is covered by what is held. */
  lemma {:induction false} LiquidateCovered(holdings: seq<Holding>, traded: set<Symbol>, needed: real,
                                            raise: (Holding, real) -> Quote, o: Order)
    requires RaisesEnough(raise) && o in Liquidate(holdings, traded, needed, raise).legs
    ensures exists h :: h in holdings && Eligible(h, traded) && Covered(o, h)
  {
    var init, last := holdings[..|holdings| - 1], holdings[|holdings| - 1];
    var so_far := Liquidate(init, traded, needed, raise);
    Tapped(so_far, last, traded, raise);
    if o in so_far.legs {
      LiquidateCovered(init, traded, needed, raise, o);
      var h :| h in init && Eligible(h, traded) && Covered(o, h);
      assert h in holdings;
    } else {
      assert last in holdings;
    }
  }

  // A sale raises no more than is needed, but for the last unit it takes to get there.
  ghost predicate RaisesNoMore(raise: (Holding, real) -> Quote, unit: real) {
    forall h: Holding, needed {:trigger raise(h, needed)} ::
      h.price > 0.0 && needed > 0.0 ==> Times(raise(h, needed).quantity - unit, h.price) < needed
  }

  lemma UnderNeed(quantity: real, unit: real, needed: real, price: real)
    requires price > 0.0 && quantity < needed / price + unit
    ensures Times(quantity - unit, price) < needed
  {
    TimesQuotient(needed, price);
    TimesKeepsOrder(needed / price, quantity - unit, price);
  }

  lemma RaisingRaisesNoMore(fractional: bool)
    ensures RaisesNoMore(Raising(fractional), Unit(fractional))
  {
    forall h: Holding, needed | h.price > 0.0 && needed > 0.0
      ensures Times(Raising(fractional)(h, needed).quantity - Unit(fractional), h.price) < needed
    {
      PositiveQuotient(needed, h.price);
      RoundUpSharesCovers(needed / h.price, fractional);
      UnderNeed(Raising(fractional)(h, needed).quantity, Unit(fractional), needed, h.price);
    }
  }

  // What is still needed when a leg is sold is what was needed, less what the legs before it raised.
  ghost predicate NotTooMany(legs: seq<Order>, i: nat, needed: real, unit: real)
    requires i < |legs|
  {
    && Wanting(legs[i], needed - Dollars(legs[..i]), unit)
    && (i + 1 < |legs| ==> legs[i].quantity == legs[i].currentShares)
  }

  ghost predicate Wanting(leg: Order, needed: real, unit: real) {
    needed > FUNDING_EPSILON && Times(leg.quantity - unit, leg.price) < needed
  }

  ghost predicate NoLegTooMany(legs: seq<Order>, needed: real, unit: real) {
    forall i :: 0 <= i < |legs| ==> NotTooMany(legs, i, needed, unit)
  }

  lemma LegBefore(legs: seq<Order>, o: Order, i: nat)
    requires i < |legs|
    ensures (legs + [o])[i] == legs[i] && (legs + [o])[..i] == legs[..i]
  {
  }

  lemma NoLegTooManyGrows(legs: seq<Order>, o: Order, needed: real, unit: real)
    requires NoLegTooMany(legs, needed, unit) && Wanting(o, needed - Dollars(legs), unit)
    requires legs != [] ==> legs[|legs| - 1].quantity == legs[|legs| - 1].currentShares
    ensures NoLegTooMany(legs + [o], needed, unit)
  {
    forall i | 0 <= i < |legs + [o]| ensures NotTooMany(legs + [o], i, needed, unit) {
      if i < |legs| {
        StillNotTooMany(legs, o, i, needed, unit);
      } else {
        NewNotTooMany(legs, o, needed, unit);
      }
    }
  }

  lemma StillNotTooMany(legs: seq<Order>, o: Order, i: nat, needed: real, unit: real)
    requires i < |legs| && NotTooMany(legs, i, needed, unit)
    requires legs[|legs| - 1].quantity == legs[|legs| - 1].currentShares
    ensures NotTooMany(legs + [o], i, needed, unit)
  {
    LegBefore(legs, o, i);
  }

  lemma NewNotTooMany(legs: seq<Order>, o: Order, needed: real, unit: real)
    requires Wanting(o, needed - Dollars(legs), unit)
    ensures NotTooMany(legs + [o], |legs|, needed, unit)
  {
    var all := legs + [o];
    assert all[|legs|] == o && all[..|legs|] == legs;
    assert Wanting(all[|legs|], needed - Dollars(all[..|legs|]), unit);
  }

  lemma {:induction false} LiquidateNoMore(holdings: seq<Holding>, traded: set<Symbol>, needed: real,
                                           raise: (Holding, real) -> Quote, unit: real)
    requires RaisesEnough(raise) && RaisesNoMore(raise, unit)
    ensures var l := Liquidate(holdings, traded, needed, raise);
            && NoLegTooMany(l.legs, needed, unit)
            && (l.legs != [] && l.needed > FUNDING_EPSILON ==>
                  l.legs[|l.legs| - 1].quantity == l.legs[|l.legs| - 1].currentShares)
  {
    if holdings != [] {
      var init, last := holdings[..|holdings| - 1], holdings[|holdings| - 1];
      LiquidateNoMore(init, traded, needed, raise, unit);
      LiquidateConserves(init, traded, needed, raise);
      var so_far := Liquidate(init, traded, needed, raise);
      Tapped(so_far, last, traded, raise);
      if so_far.needed > FUNDING_EPSILON && Eligible(last, traded) {
        NoLegTooManyGrows(so_far.legs, Sale(last, raise(last, so_far.needed)), needed, unit);
      }
    }
  }

  // -- The whole batch ---------------------------------------------------------------------------

  // The account a batch is funded from.
  datatype Account = Account(buyingPower: real, reserve: real, cash: seq<Holding>, fractional: bool, minDollars: real)

  function Spendable(a: Account, sells: seq<Order>): real {
    Max(a.buyingPower - Max(a.reserve, 0.0), 0.0) + Proceeds(sells)
  }

  // The cash equivalents sold for a batch, if its buys cost more than there is.
  function Sleeve(planned: seq<Order>, a: Account): seq<Order> {
    var shortfall := Dollars(Only(planned, Buy)) - Spendable(a, Only(planned, Sell));
    if shortfall > FUNDING_EPSILON then
      Freed(shortfall, a.cash, planned, a.fractional).legs
    else []
  }

  // The money there is for the buys, once the sleeve is sold.
  function Budget(planned: seq<Order>, a: Account): real {
    Spendable(a, Only(planned, Sell)) + Dollars(Sleeve(planned, a))
  }

  predicate Fits(planned: seq<Order>, a: Account) {
    Dollars(Only(planned, Buy)) <= Budget(planned, a) + FUNDING_EPSILON
  }

  // How the buys of a batch that does not fit are cut down.
  function CutDown(planned: seq<Order>, a: Account, policy: Policy): Fitted {
    FitToBudget(Only(planned, Buy), Budget(planned, a), policy, a.minDollars, a.fractional)
  }

  // The buys that are sent.
  function Sent(planned: seq<Order>, a: Account, policy: Policy): seq<Order> {
    if Fits(planned, a) then Only(planned, Buy) else FilledAll(CutDown(planned, a, policy).funded)
  }

  function Fund(planned: seq<Order>, a: Account, policy: Policy): Funded {
    Funded(Sleeve(planned, a) + Only(planned, Sell) + Sent(planned, a, policy),
           if Fits(planned, a) then [] else CutDown(planned, a, policy).unfunded)
  }

  method SellSleeve(planned: seq<Order>, a: Account, requested: real, budget: real) returns (liquidation: seq<Order>)
    requires requested == Dollars(Only(planned, Buy)) && budget == Spendable(a, Only(planned, Sell))
    ensures liquidation == Sleeve(planned, a)
  {
    if requested > budget + FUNDING_EPSILON && a.cash != [] {
      liquidation := LiquidationLegs(requested - budget, a.cash, planned, a.fractional);
    } else {
      liquidation := [];
    }
  }

  lemma NothingPlanned(a: Account, policy: Policy)
    ensures Fund([], a, policy) == Funded([], [])
  {
  }

  method FundPlannedOrders(planned: seq<Order>, a: Account, policy: Policy) returns (funded: Funded)
    ensures funded == Fund(planned, a, policy)
  {
    if planned == [] {
      NothingPlanned(a, policy);
      return Funded([], []);
    }
    var sells, buys := Only(planned, Sell), Only(planned, Buy);
    var requested, spendable := Dollars(buys), Spendable(a, sells);
    var liquidation := SellSleeve(planned, a, requested, spendable);
    var budget := spendable + Dollars(liquidation);
    assert budget == Budget(planned, a);
    if requested <= budget + FUNDING_EPSILON {
      funded := Funded(liquidation + sells + buys, []);
    } else {
      var kept, unfunded, remaining := FitBuysToBudget(buys, budget, policy, a.minDollars, a.fractional);
      funded := Funded(liquidation + sells + FilledAll(kept), unfunded);
    }
  }

  // -- What paying for the batch does to the account -----------------------------------------------

  // What one order does to spendable cash.
  function Flow(o: Order): real {
    if o.side.Buy? then -o.tradeDollars else if o.opensShort then 0.0 else o.tradeDollars
  }

  function Cash(start: real, orders: seq<Order>): real {
    if orders == [] then start else Cash(start, orders[..|orders| - 1]) + Flow(orders[|orders| - 1])
  }

  ghost predicate NoNegatives(orders: seq<Order>) { forall o :: o in orders ==> o.tradeDollars >= 0.0 }

  ghost predicate SellsFirst(orders: seq<Order>) {
    forall i, j :: 0 <= i < j < |orders| && orders[j].side.Sell? ==> orders[i].side.Sell?
  }

  lemma {:induction false} SellingOnlyAdds(start: real, orders: seq<Order>)
    requires NoNegatives(orders) && forall o :: o in orders ==> o.side.Sell?
    ensures Cash(start, orders) >= start
  {
    if orders != [] {
      assert orders[|orders| - 1] in orders;
      SellingOnlyAdds(start, orders[..|orders| - 1]);
    }
  }

  /** Where the sells come first, no point of the batch is poorer than both its ends. */
  lemma {:induction false} PoorestAtTheEnds(start: real, orders: seq<Order>, i: nat)
    requires NoNegatives(orders) && SellsFirst(orders) && i <= |orders|
    ensures Cash(start, orders[..i]) >= Min(start, Cash(start, orders))
  {
    if i == |orders| {
      assert orders[..i] == orders;
    } else {
      var init, last := orders[..|orders| - 1], orders[|orders| - 1];
      assert init[..i] == orders[..i] && last in orders;
      if last.side.Sell? {
        forall o | o in orders[..i] ensures o.side.Sell? {
          var k :| 0 <= k < i && orders[..i][k] == o;
          assert orders[k].side.Sell?;
        }
        SellingOnlyAdds(start, orders[..i]);
      } else {
        PoorestAtTheEnds(start, init, i);
      }
    }
  }

  lemma {:induction false} CashOfBoth(start: real, first: seq<Order>, second: seq<Order>)
    ensures Cash(start, first + second) == Cash(Cash(start, first), second)
  {
    if second == [] {
      assert first + second == first;
    } else {
      assert (first + second)[..|first + second| - 1] == first + second[..|second| - 1];
      CashOfBoth(start, first, second[..|second| - 1]);
    }
  }

  lemma {:induction false} CashOfBuys(start: real, buys: seq<Order>)
    requires forall o :: o in buys ==> o.side.Buy?
    ensures Cash(start, buys) == start - Dollars(buys)
  {
    if buys != [] {
      assert buys[|buys| - 1] in buys;
      CashOfBuys(start, buys[..|buys| - 1]);
    }
  }

  lemma {:induction false} CashOfSells(start: real, sells: seq<Order>)
    requires forall o :: o in sells ==> o.side.Sell?
    ensures Cash(start, sells) == start + Proceeds(sells)
  {
    if sells != [] {
      assert sells[|sells| - 1] in sells;
      CashOfSells(start, sells[..|sells| - 1]);
    }
  }

  lemma {:induction false} ProceedsOfCovered(legs: seq<Order>)
    requires forall o :: o in legs ==> !o.opensShort
    ensures Proceeds(legs) == Dollars(legs)
  {
    if legs != [] {
      assert legs[|legs| - 1] in legs;
      ProceedsOfCovered(legs[..|legs| - 1]);
    }
  }

  lemma {:induction false} ProceedsNotNegative(sells: seq<Order>)
    requires NoNegatives(sells)
    ensures Proceeds(sells) >= 0.0 && Dollars(sells) >= 0.0
  {
    if sells != [] {
      assert sells[|sells| - 1] in sells;
      ProceedsNotNegative(sells[..|sells| - 1]);
    }
  }

  lemma WellPricedNotNegative(orders: seq<Order>)
    requires AllWellPriced(orders)
    ensures NoNegatives(orders)
  {
    forall o | o in orders ensures o.tradeDollars >= 0.0 {
      ProductNotNegative(o.quantity, o.price);
    }
  }

  lemma SleeveIsCovered(planned: seq<Order>, a: Account)
    ensures forall o :: o in Sleeve(planned, a) ==>
              o.symbol !in Symbols(planned) && exists h :: h in a.cash && Covered(o, h)
    ensures AllWellPriced(Sleeve(planned, a)) && (forall o :: o in Sleeve(planned, a) ==> o.side.Sell? && !o.opensShort)
  {
    RaisingRaisesEnough(a.fractional);
    var shortfall := Dollars(Only(planned, Buy)) - Spendable(a, Only(planned, Sell));
    forall o | o in Sleeve(planned, a)
      ensures o.symbol !in Symbols(planned) && exists h :: h in a.cash && Covered(o, h)
    {
      LiquidateCovered(a.cash, Symbols(planned), Padded(shortfall), Raising(a.fractional), o);
    }
  }

  lemma BudgetNotNegative(planned: seq<Order>, a: Account)
    requires AllWellPriced(planned)
    ensures Budget(planned, a) >= 0.0
  {
    OnlyKeepsSide(planned, Sell);
    WellPricedNotNegative(planned);
    ProceedsNotNegative(Only(planned, Sell));
    SleeveIsCovered(planned, a);
    WellPricedNotNegative(Sleeve(planned, a));
    ProceedsNotNegative(Sleeve(planned, a));
  }

  // The facts about fitting that hold whatever the policy.
  lemma CutDownFits(planned: seq<Order>, a: Account, policy: Policy)
    requires AllWellPriced(planned) && !Fits(planned, a)
    ensures var fit, buys := CutDown(planned, a, policy), Only(planned, Buy);
            && 0.0 <= fit.remaining && Dollars(FilledAll(fit.funded)) + fit.remaining == Budget(planned, a)
            && multiset(Asked(fit.funded)) + multiset(Asked(fit.unfunded)) == multiset(buys)
            && forall slip :: slip in fit.funded ==> slip.asked in buys && WorthHaving(slip, a.minDollars)
  {
    var buys, budget := Only(planned, Buy), Budget(planned, a);
    OnlyKeepsSide(planned, Buy);
    BudgetNotNegative(planned, a);
    AnyPolicyFits(buys, budget, policy, a.minDollars, a.fractional);
  }

  lemma AnyPolicyFits(buys: seq<Order>, budget: real, policy: Policy, minDollars: real, fractional: bool)
    requires AllWellPriced(buys) && 0.0 <= budget < Dollars(buys)
    ensures var fit := FitToBudget(buys, budget, policy, minDollars, fractional);
            && 0.0 <= fit.remaining && Dollars(FilledAll(fit.funded)) + fit.remaining == budget
            && multiset(Asked(fit.funded)) + multiset(Asked(fit.unfunded)) == multiset(buys)
            && forall slip :: slip in fit.funded ==> slip.asked in buys && WorthHaving(slip, minDollars)
  {
    var queue, scale := Queue(buys, policy), Share(buys, budget, policy);
    QueueKeeps(buys, policy);
    ShareOfBudget(Dollars(buys), budget);
    SharesRoundDown(fractional);
    QuotesAreAffordable(scale, ToShares(fractional), Unit(fractional));
    QuotesNeverMore(scale, ToShares(fractional), Unit(fractional));
    FitConserves(queue, Quoting(scale, ToShares(fractional)), budget, minDollars);
    FitSplits(queue, Quoting(scale, ToShares(fractional)), budget, minDollars);
    FitNeverRaises(queue, Quoting(scale, ToShares(fractional)), budget, minDollars);
  }

  lemma {:induction false} FilledFromSlips(slips: seq<Slip>, o: Order)
    requires o in FilledAll(slips)
    ensures exists slip :: slip in slips && Filled(slip) == o
  {
    var init, last := slips[..|slips| - 1], slips[|slips| - 1];
    if o == Filled(last) {
      assert last in slips;
    } else {
      FilledFromSlips(init, o);
      var slip :| slip in init && Filled(slip) == o;
      assert slip in slips;
    }
  }

  ghost predicate Honest(quote: (Order, real) -> Quote) {
    forall o: Order, remaining {:trigger quote(o, remaining)} :: PricedAs(o, quote(o, remaining))
  }

  ghost predicate PricedAs(o: Order, q: Quote) { q.cost == q.quantity * o.price }

  lemma {:induction false} FitHonest(queue: seq<Order>, quote: (Order, real) -> Quote, budget: real, minDollars: real)
    requires Honest(quote)
    ensures forall slip :: slip in Fit(queue, quote, budget, minDollars).funded ==> PricedAs(slip.asked, slip.quote)
  {
    if queue != [] {
      FitHonest(queue[..|queue| - 1], quote, budget, minDollars);
      var so_far := Fit(queue[..|queue| - 1], quote, budget, minDollars);
      assert PricedAs(queue[|queue| - 1], quote(queue[|queue| - 1], so_far.remaining));
    }
  }

  lemma QuotesHonest(scale: real, round: real -> real)
    ensures Honest(Quoting(scale, round))
  {
  }

  // A buy as planned, or a smaller one of the same symbol at the same price.
  ghost predicate NoLarger(sent: Order, planned: Order) {
    && sent == planned.(quantity := sent.quantity, tradeDollars := sent.tradeDollars)
    && 0.0 < sent.quantity <= planned.quantity && WellPriced(sent)
  }

  lemma SlipNoLarger(slip: Slip, minDollars: real)
    requires WellPriced(slip.asked) && WorthHaving(slip, minDollars) && PricedAs(slip.asked, slip.quote)
    ensures NoLarger(Filled(slip), slip.asked)
  {
  }

  /** Every buy that is sent was planned, and is sent as planned or smaller, at the planned price. */
  lemma SentBuysWerePlanned(planned: seq<Order>, a: Account, policy: Policy, o: Order)
    requires AllWellPriced(planned) && o in Sent(planned, a, policy)
    ensures exists p :: p in planned && p.side.Buy? && NoLarger(o, p)
  {
    OnlyKeepsSide(planned, Buy);
    if Fits(planned, a) {
      assert o in planned && NoLarger(o, o);
    } else {
      CutDownFits(planned, a, policy);
      CutDownHonest(planned, a, policy);
      var fit := CutDown(planned, a, policy);
      FilledFromSlips(fit.funded, o);
      var slip :| slip in fit.funded && Filled(slip) == o;
      SlipNoLarger(slip, a.minDollars);
      assert slip.asked in planned;
    }
  }

  lemma CutDownHonest(planned: seq<Order>, a: Account, policy: Policy)
    ensures forall slip :: slip in CutDown(planned, a, policy).funded ==> PricedAs(slip.asked, slip.quote)
  {
    var buys, budget := Only(planned, Buy), Budget(planned, a);
    QuotesHonest(Share(buys, budget, policy), ToShares(a.fractional));
    FitHonest(Queue(buys, policy), Quoting(Share(buys, budget, policy), ToShares(a.fractional)), budget, a.minDollars);
  }

  /** Every planned buy is either sent or reported as unfunded, once. */
  lemma NoBuyIsLost(planned: seq<Order>, a: Account, policy: Policy)
    requires AllWellPriced(planned)
    ensures var buys, unfunded := Only(planned, Buy), Fund(planned, a, policy).unfunded;
            if Fits(planned, a) then Sent(planned, a, policy) == buys && unfunded == []
            else multiset(Asked(CutDown(planned, a, policy).funded)) + multiset(Asked(unfunded)) == multiset(buys)
  {
    if !Fits(planned, a) {
      CutDownFits(planned, a, policy);
    }
  }

  lemma {:induction false} OnlyOfBoth(first: seq<Order>, second: seq<Order>, side: Side)
    ensures Only(first + second, side) == Only(first, side) + Only(second, side)
  {
    if second == [] {
      assert first + second == first;
    } else {
      assert (first + second)[..|first + second| - 1] == first + second[..|second| - 1];
      OnlyOfBoth(first, second[..|second| - 1], side);
    }
  }

  lemma {:induction false} OnlyAll(orders: seq<Order>, side: Side)
    requires forall o :: o in orders ==> o.side == side
    ensures Only(orders, side) == orders
  {
    if orders != [] {
      assert orders[|orders| - 1] in orders;
      OnlyAll(orders[..|orders| - 1], side);
      assert orders == orders[..|orders| - 1] + [orders[|orders| - 1]];
    }
  }

  lemma {:induction false} OnlyNone(orders: seq<Order>, side: Side)
    requires forall o :: o in orders ==> o.side != side
    ensures Only(orders, side) == []
  {
    if orders != [] {
      assert orders[|orders| - 1] in orders;
      OnlyNone(orders[..|orders| - 1], side);
    }
  }

  lemma SentAreBuys(planned: seq<Order>, a: Account, policy: Policy)
    requires AllWellPriced(planned)
    ensures AllWellPriced(Sent(planned, a, policy)) && forall o :: o in Sent(planned, a, policy) ==> o.side.Buy?
  {
    forall o | o in Sent(planned, a, policy) ensures WellPriced(o) && o.side.Buy? {
      SentBuysWerePlanned(planned, a, policy, o);
    }
  }

  /** What goes out sells the sleeve and everything the plan sells, untouched and in order, and then
      buys; the sleeve and the plan have no symbol in common. */
  lemma PlannedSellsSurvive(planned: seq<Order>, a: Account, policy: Policy)
    requires AllWellPriced(planned)
    ensures var out := Fund(planned, a, policy).fundable;
            && Only(out, Sell) == Sleeve(planned, a) + Only(planned, Sell)
            && Only(out, Buy) == Sent(planned, a, policy)
            && SellsFirst(out) && AllWellPriced(out)
            && forall o, p :: o in Sleeve(planned, a) && p in planned ==> o.symbol != p.symbol
  {
    var sleeve, sells, sent := Sleeve(planned, a), Only(planned, Sell), Sent(planned, a, policy);
    SleeveIsCovered(planned, a);
    SentAreBuys(planned, a, policy);
    OnlyKeepsSide(planned, Sell);
    OnlySells(sleeve + sells, sent);
  }

  lemma OnlySells(sells: seq<Order>, buys: seq<Order>)
    requires (forall o :: o in sells ==> o.side.Sell?) && forall o :: o in buys ==> o.side.Buy?
    ensures Only(sells + buys, Sell) == sells && Only(sells + buys, Buy) == buys && SellsFirst(sells + buys)
  {
    OnlyOfBoth(sells, buys, Sell);
    OnlyOfBoth(sells, buys, Buy);
    OnlyAll(sells, Sell);
    OnlyNone(buys, Sell);
    OnlyNone(sells, Buy);
    OnlyAll(buys, Buy);
    forall i, j | 0 <= i < j < |sells + buys| && (sells + buys)[j].side.Sell? ensures (sells + buys)[i].side.Sell? {
      assert j < |sells|;
      assert (sells + buys)[i] in sells;
    }
  }

  lemma SentIsPaidFor(planned: seq<Order>, a: Account, policy: Policy)
    requires AllWellPriced(planned)
    ensures Dollars(Sent(planned, a, policy)) <= Budget(planned, a) + FUNDING_EPSILON
  {
    if !Fits(planned, a) {
      CutDownFits(planned, a, policy);
    }
  }

  /** Paying for the batch in the order it is returned never takes cash below the buying power or the
      reserve, whichever is less, by more than the funding slack: not at the end, and not on the way. */
  lemma CashNeverBelowReserve(planned: seq<Order>, a: Account, policy: Policy, i: nat)
    requires AllWellPriced(planned) && i <= |Fund(planned, a, policy).fundable|
    ensures Cash(a.buyingPower, Fund(planned, a, policy).fundable[..i])
            >= Min(a.buyingPower, Max(a.reserve, 0.0)) - 0.01
  {
    var out := Fund(planned, a, policy).fundable;
    PlannedSellsSurvive(planned, a, policy);
    WellPricedNotNegative(out);
    PoorestAtTheEnds(a.buyingPower, out, i);
    CashAtTheEnd(planned, a, policy);
    SentIsPaidFor(planned, a, policy);
  }

  lemma CashAtTheEnd(planned: seq<Order>, a: Account, policy: Policy)
    requires AllWellPriced(planned)
    ensures Cash(a.buyingPower, Fund(planned, a, policy).fundable)
            == a.buyingPower + Dollars(Sleeve(planned, a))
              + Proceeds(Only(planned, Sell)) - Dollars(Sent(planned, a, policy))
  {
    var sleeve, sells, sent := Sleeve(planned, a), Only(planned, Sell), Sent(planned, a, policy);
    SleeveIsCovered(planned, a);
    SentAreBuys(planned, a, policy);
    OnlyKeepsSide(planned, Sell);
    CashOfBoth(a.buyingPower, sleeve + sells, sent);
    CashOfBoth(a.buyingPower, sleeve, sells);
    CashOfSells(a.buyingPower, sleeve);
    ProceedsOfCovered(sleeve);
    CashOfSells(Cash(a.buyingPower, sleeve), sells);
    CashOfBuys(Cash(a.buyingPower, sleeve + sells), sent);
  }

  lemma PaddedCovers(shortfall: real)
    requires shortfall > 0.0
    ensures Padded(shortfall) >= shortfall
  {
  }

  // A cash equivalent with a price, of more than dust, that no order of the batch is for.
  ghost predicate UpForSale(h: Holding, planned: seq<Order>) {
    h.price > 0.0 && h.shares > 0.000000001 && forall o :: o in planned ==> o.symbol != h.symbol
  }

  /** Buys are cut down only once every cash equivalent the batch does not trade has been sold out. */
  lemma CutsOnlyOnceSleeveIsSoldOut(planned: seq<Order>, a: Account, h: Holding)
    requires !Fits(planned, a) && h in a.cash && UpForSale(h, planned)
    ensures SoldOut(h, Sleeve(planned, a))
  {
    var shortfall := Dollars(Only(planned, Buy)) - Spendable(a, Only(planned, Sell));
    if shortfall > FUNDING_EPSILON {
      PaddedCovers(shortfall);
      RaisingRaisesEnough(a.fractional);
      LiquidateConserves(a.cash, Symbols(planned), Padded(shortfall), Raising(a.fractional));
      LiquidateRaisesOrSellsOut(a.cash, Symbols(planned), Padded(shortfall), Raising(a.fractional), h);
    }
  }

  lemma RaisedOrSoldOut(holdings: seq<Holding>, traded: set<Symbol>, needed: real, raise: (Holding, real) -> Quote,
                        h: Holding)
    requires RaisesEnough(raise) && h in holdings && Eligible(h, traded)
    ensures var l := Liquidate(holdings, traded, needed, raise);
            Dollars(l.legs) >= needed - FUNDING_EPSILON || SoldOut(h, l.legs)
  {
    LiquidateConserves(holdings, traded, needed, raise);
    LiquidateRaisesOrSellsOut(holdings, traded, needed, raise, h);
  }

  /** Once the sleeve is tapped, it frees the padded shortfall, to within the funding slack, or it is
      sold out. */
  lemma SleeveRaisesOrSellsOut(planned: seq<Order>, a: Account, h: Holding)
    requires h in a.cash && UpForSale(h, planned)
    ensures var shortfall := Dollars(Only(planned, Buy)) - Spendable(a, Only(planned, Sell));
            shortfall > FUNDING_EPSILON ==>
              Dollars(Sleeve(planned, a)) >= Padded(shortfall) - FUNDING_EPSILON || SoldOut(h, Sleeve(planned, a))
  {
    RaisingRaisesEnough(a.fractional);
    var shortfall := Dollars(Only(planned, Buy)) - Spendable(a, Only(planned, Sell));
    RaisedOrSoldOut(a.cash, Symbols(planned), Padded(shortfall), Raising(a.fractional), h);
  }

  // What the buys of a batch cost beyond what buying power, less the reserve, and the sales bring.
  function Shortfall(planned: seq<Order>, a: Account): real {
    Dollars(Only(planned, Buy)) - Max(a.buyingPower - Max(a.reserve, 0.0), 0.0) - Proceeds(Only(planned, Sell))
  }

  lemma ShortfallIsPadded(planned: seq<Order>, a: Account)
    ensures Shortfall(planned, a) == Dollars(Only(planned, Buy)) - Spendable(a, Only(planned, Sell))
    ensures Shortfall(planned, a) > 0.0 ==> Padded(Shortfall(planned, a)) == Shortfall(planned, a) * 1.005
  {
  }

  /** Cash equivalents are sold one after the other, each only while more than a cent of the padded shortfall is still
      needed, each sold out before the next, and none for more than is needed then, but for one unit. */
  lemma SleeveSellsNoMore(planned: seq<Order>, a: Account, i: nat)
    requires i < |Sleeve(planned, a)|
    ensures var sleeve, unit := Sleeve(planned, a), if a.fractional then 0.01 else 1.0;
            var needed := Shortfall(planned, a) * 1.005 - Dollars(sleeve[..i]);
            && Shortfall(planned, a) > 0.01 && needed > 0.01
            && Times(sleeve[i].quantity - unit, sleeve[i].price) < needed
            && (i + 1 < |sleeve| ==> sleeve[i].quantity == sleeve[i].currentShares)
  {
    RaisingRaisesEnough(a.fractional);
    RaisingRaisesNoMore(a.fractional);
    ShortfallIsPadded(planned, a);
    LiquidateNoMore(a.cash, Symbols(planned), Padded(Shortfall(planned, a)), Raising(a.fractional), Unit(a.fractional));
    assert NotTooMany(Sleeve(planned, a), i, Padded(Shortfall(planned, a)), Unit(a.fractional));
  }

  lemma LegUnderNeed(o: Order, unit: real, needed: real)
    requires WellPriced(o) && Times(o.quantity - unit, o.price) < needed
    ensures o.tradeDollars < needed + Times(unit, o.price)
  {
  }

  /** So the sleeve raises less than the padded shortfall and one unit of the equivalent sold last. */
  lemma SleeveRaisesNoMore(planned: seq<Order>, a: Account)
    requires Sleeve(planned, a) != []
    ensures var sleeve := Sleeve(planned, a); var last := sleeve[|sleeve| - 1];
            Dollars(sleeve) < Shortfall(planned, a) * 1.005 + Times(if a.fractional then 0.01 else 1.0, last.price)
  {
    var sleeve := Sleeve(planned, a);
    var last := sleeve[|sleeve| - 1];
    var unit := if a.fractional then 0.01 else 1.0;
    SleeveSellsNoMore(planned, a, |sleeve| - 1);
    SleeveIsCovered(planned, a);
    assert last in sleeve;
    LegUnderNeed(last, unit, Shortfall(planned, a) * 1.005 - Dollars(sleeve[..|sleeve| - 1]));
  }

  /** A batch with no shortfall to speak of goes out whole, sells first, and nothing else is sold for it. */
  lemma FitsGoesOutWhole(planned: seq<Order>, a: Account, policy: Policy)
    requires Shortfall(planned, a) <= 0.01
    ensures Fund(planned, a, policy) == Funded(Only(planned, Sell) + Only(planned, Buy), [])
  {
    ShortfallIsPadded(planned, a);
    assert [] + Only(planned, Sell) == Only(planned, Sell);
  }

  /** A batch that is cut down leaves, in cash, the buying power or the reserve, whichever is less, and what the cut
      could not spend. */
  lemma CutDownSpendsTheRest(planned: seq<Order>, a: Account, policy: Policy)
    requires AllWellPriced(planned) && !Fits(planned, a)
    ensures Cash(a.buyingPower, Fund(planned, a, policy).fundable)
            == Min(a.buyingPower, Max(a.reserve, 0.0)) + CutDown(planned, a, policy).remaining
  {
    CashAtTheEnd(planned, a, policy);
    CutDownFits(planned, a, policy);
  }
}
