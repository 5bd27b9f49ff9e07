/** Cutting the buys of a batch down to a budget, by rank or in proportion, and what the cut conserves. */
module Funding {
  import opened Wrappers
  import opened Sizing
  import opened Ordering
  import opened Planning

  datatype Policy = ProRata | Greedy
  datatype Status = Full | Reduced | Unfunded

  // What became of one buy: the order as it was asked for, and what it was given.
  datatype Slip = Slip(asked: Order, quote: Quote, status: Status)

  datatype Fitted = Fitted(funded: seq<Slip>, unfunded: seq<Slip>, remaining: real)

  datatype Holding = Holding(symbol: Symbol, price: real, shares: real)

  // A cash-equivalent sale in progress: the dollars still needed, and the legs so far.
  datatype Liquidation = Liquidation(needed: real, legs: seq<Order>)

  datatype Funded = Funded(fundable: seq<Order>, unfunded: seq<Slip>)

  function Dollars(orders: seq<Order>): real {
    if orders == [] then 0.0 else Dollars(orders[..|orders| - 1]) + orders[|orders| - 1].tradeDollars
  }

  // Sales that open a short are left out: they raise no cash to spend.
  function Proceeds(sells: seq<Order>): real {
    if sells == [] then 0.0
    else
      var last := sells[|sells| - 1];
      Proceeds(sells[..|sells| - 1]) + if last.opensShort then 0.0 else last.tradeDollars
  }

  // What planning promises of every order it hands over.
  ghost predicate WellPriced(o: Order) {
    o.price > 0.0 && o.quantity > 0.0 && o.tradeDollars == o.quantity * o.price
  }

  ghost predicate AllWellPriced(orders: seq<Order>) { forall o :: o in orders ==> WellPriced(o) }

  lemma PlannedWellPriced(targets: Book, s: Setting)
    ensures AllWellPriced(Planned(targets, s))
  {
    PlannedIsTheLegs(targets, s);
    forall o | o in Planned(targets, s) ensures WellPriced(o) {
      LegWellPriced(o, targets, s);
    }
  }

  lemma LegWellPriced(o: Order, targets: Book, s: Setting)
    requires Leg(o.symbol, targets, s) == Some(o)
    ensures WellPriced(o)
  {
  }

  // -- Fitting the buys ------------------------------------------------------------------

  predicate LargestFirst(a: Order, b: Order) {
    a.tradeDollars > b.tradeDollars || (a.tradeDollars == b.tradeDollars && Before(a.symbol, b.symbol))
  }

  function Queue(buys: seq<Order>, policy: Policy): seq<Order> {
    if policy.Greedy? then SortBy(buys, LargestFirst) else buys
  }

  function Share(buys: seq<Order>, budget: real, policy: Policy): real {
    if policy.Greedy? then 1.0 else if Dollars(buys) > 0.0 then budget / Dollars(buys) else 0.0
  }

  // The quantity one buy gets out of what is left, and what it costs.
  datatype Quote = Quote(quantity: real, cost: real)

  function Given(o: Order, scale: real, remaining: real, round: real -> real): Quote {
    var quantity := Rationed(o.price, Scaled(o, scale, round), remaining, round);
    Quote(quantity, quantity * o.price)
  }

  function Scaled(o: Order, scale: real, round: real -> real): real { round(o.quantity * scale) }

  function Rationed(price: real, wanted: real, remaining: real, round: real -> real): real {
    if wanted * price > remaining && price > 0.0 then round(remaining / price) else wanted
  }

  function Quoting(scale: real, round: real -> real): (Order, real) -> Quote {
    (o, remaining) => Given(o, scale, remaining, round)
  }

  function Serve(so_far: Fitted, o: Order, quote: (Order, real) -> Quote, minDollars: real): Fitted {
    var q := quote(o, so_far.remaining);
    if q.quantity <= SHARE_EPSILON || q.cost < minDollars then
      so_far.(unfunded := so_far.unfunded + [Slip(o, q, Unfunded)])
    else
      var status := if q.quantity < o.quantity - SHARE_EPSILON then Reduced else Full;
      so_far.(funded := so_far.funded + [Slip(o, q, status)], remaining := so_far.remaining - q.cost)
  }

  function Fit(queue: seq<Order>, quote: (Order, real) -> Quote, budget: real, minDollars: real): Fitted {
    if queue == [] then Fitted([], [], budget)
    else Serve(Fit(queue[..|queue| - 1], quote, budget, minDollars), queue[|queue| - 1], quote, minDollars)
  }

  function FitToBudget(buys: seq<Order>, budget: real, policy: Policy, minDollars: real, fractional: bool): Fitted {
    Fit(Queue(buys, policy), Quoting(Share(buys, budget, policy), ToShares(fractional)), budget, minDollars)
  }

  method FitBuysToBudget(buys: seq<Order>, budget: real, policy: Policy, minDollars: real, fractional: bool)
    returns (funded: seq<Slip>, unfunded: seq<Slip>, remaining: real)
    ensures Fitted(funded, unfunded, remaining) == FitToBudget(buys, budget, policy, minDollars, fractional)
  {
    QueueKeeps(buys, policy);
    var queue, scale := Queue(buys, policy), Share(buys, budget, policy);
    var round := ToShares(fractional);
    ghost var quote := Quoting(scale, round);
    funded, unfunded, remaining := [], [], budget;
    for i := 0 to |queue|
      invariant Fitted(funded, unfunded, remaining) == Fit(queue[..i], quote, budget, minDollars)
    {
      assert queue[..i + 1][..i] == queue[..i];
      var order := queue[i];
      var q := Given(order, scale, remaining, round);
      assert q == quote(order, remaining);
      if q.quantity <= SHARE_EPSILON || q.cost < minDollars {
        unfunded := unfunded + [Slip(order, q, Unfunded)];
        continue;
      }
      remaining := remaining - q.cost;
      var status := if q.quantity < order.quantity - SHARE_EPSILON then Reduced else Full;
      funded := funded + [Slip(order, q, status)];
    }
    assert queue[..|queue|] == queue;
  }

  lemma QueueKeeps(buys: seq<Order>, policy: Policy)
    ensures multiset(Queue(buys, policy)) == multiset(buys)
    ensures forall o :: o in Queue(buys, policy) <==> o in buys
    ensures policy.Greedy? ==> InOrder(Queue(buys, policy), LargestFirst)
  {
    SortBySorts(buys, LargestFirst);
    forall o ensures o in Queue(buys, policy) <==> o in buys {
      assert o in buys <==> o in multiset(buys);
      assert o in Queue(buys, policy) <==> o in multiset(Queue(buys, policy));
    }
    forall x, y ensures LargestFirst(x, y) || LargestFirst(y, x) { BeforeTotal(x.symbol, y.symbol); }
    forall x, y, z | LargestFirst(x, y) && LargestFirst(y, z) ensures LargestFirst(x, z) {
      if x.tradeDollars == y.tradeDollars == z.tradeDollars { BeforeTransitive(x.symbol, y.symbol, z.symbol); }
    }
  }

  // More dollars, or as many and the symbol that comes first.
  ghost predicate Outranks(a: Order, b: Order) {
    a.tradeDollars >= b.tradeDollars && (a.tradeDollars == b.tradeDollars ==> Before(a.symbol, b.symbol))
  }

  /** In proportion, buys are served in their order; by rank, the largest first, and those as large by symbol. */
  lemma QueueOrder(buys: seq<Order>, policy: Policy)
    ensures policy.ProRata? ==> Queue(buys, policy) == buys
    ensures var queue := Queue(buys, policy);
            policy.Greedy? ==> forall i, j :: 0 <= i < j < |queue| ==> Outranks(queue[i], queue[j])
  {
    QueueKeeps(buys, policy);
  }

  function Asked(slips: seq<Slip>): seq<Order> {
    if slips == [] then [] else Asked(slips[..|slips| - 1]) + [slips[|slips| - 1].asked]
  }

  function Filled(slip: Slip): Order {
    slip.asked.(quantity := slip.quote.quantity, tradeDollars := slip.quote.cost)
  }

  function FilledAll(slips: seq<Slip>): seq<Order> {
    if slips == [] then [] else FilledAll(slips[..|slips| - 1]) + [Filled(slips[|slips| - 1])]
  }

  // Facts about products, one at a time.
  lemma ProductInOrder(a: real, b: real, c: real)
    requires a <= b && c >= 0.0
    ensures a * c <= b * c
  {
  }

  lemma ProductNotNegative(a: real, b: real)
    requires a >= 0.0 && b >= 0.0
    ensures a * b >= 0.0
  {
  }

  lemma Shrinks(a: real, scale: real)
    requires a >= 0.0 && 0.0 <= scale <= 1.0
    ensures a * scale <= a
  {
    ProductNotNegative(a, 1.0 - scale);
    assert a * (1.0 - scale) == a - a * scale;
  }

  lemma SmallerByProduct(a: real, b: real, c: real)
    requires a * c < b * c && c > 0.0
    ensures a < b
  {
  }

  lemma StrictlyLess(a: real, r: real, unit: real, c: real)
    requires a - r < unit && c > 0.0
    ensures a * c - r * c < unit * c
  {
    assert (unit - (a - r)) * c > 0.0;
  }

  lemma Afforded(remaining: real, price: real)
    requires price > 0.0 && remaining >= 0.0
    ensures remaining / price >= 0.0 && (remaining / price) * price == remaining
  {
  }

  lemma CapRounds(price: real, remaining: real, round: real -> real, unit: real)
    requires price > 0.0 && remaining >= 0.0 && RoundsDown(round, unit)
    ensures var a := remaining / price; var r := round(a); 0.0 <= r <= a < r + unit && (r == 0.0 || r >= unit)
  {
    Afforded(remaining, price);
  }

  lemma RationedWithin(price: real, wanted: real, remaining: real, round: real -> real, unit: real)
    requires price > 0.0 && remaining >= 0.0 && 0.0 <= wanted && RoundsDown(round, unit)
    ensures Rationed(price, wanted, remaining, round) * price <= remaining
  {
    if wanted * price > remaining {
      CapRounds(price, remaining, round, unit);
      Afforded(remaining, price);
      ProductInOrder(round(remaining / price), remaining / price, price);
    }
  }

  lemma RationedAtMostWanted(price: real, wanted: real, remaining: real, round: real -> real, unit: real)
    requires price > 0.0 && remaining >= 0.0 && 0.0 <= wanted && RoundsDown(round, unit)
    ensures 0.0 <= Rationed(price, wanted, remaining, round) <= wanted
  {
    if wanted * price > remaining {
      RationedWithin(price, wanted, remaining, round, unit);
      CapRounds(price, remaining, round, unit);
      SmallerByProduct(round(remaining / price), wanted, price);
    }
  }

  lemma RationedLeavesLess(price: real, wanted: real, remaining: real, round: real -> real, unit: real)
    requires price > 0.0 && remaining >= 0.0 && 0.0 <= wanted && RoundsDown(round, unit)
    ensures var r := Rationed(price, wanted, remaining, round); r < wanted ==> remaining - r * price < unit * price
  {
    if wanted * price > remaining {
      CapRounds(price, remaining, round, unit);
      Afforded(remaining, price);
      StrictlyLess(remaining / price, round(remaining / price), unit, price);
    }
  }

  lemma WantedRounds(o: Order, scale: real, round: real -> real, unit: real)
    requires o.quantity > 0.0 && scale >= 0.0 && RoundsDown(round, unit)
    ensures 0.0 <= Scaled(o, scale, round) <= o.quantity * scale
  {
    ProductNotNegative(o.quantity, scale);
  }

  // A quote stays within what is left.
  ghost predicate Affordable(remaining: real, q: Quote) {
    0.0 <= q.quantity && 0.0 <= q.cost <= remaining
  }

  lemma GivenAffordable(o: Order, scale: real, remaining: real, round: real -> real, unit: real)
    requires o.price > 0.0 && o.quantity > 0.0 && remaining >= 0.0 && scale >= 0.0 && RoundsDown(round, unit)
    ensures Affordable(remaining, Given(o, scale, remaining, round))
  {
    WantedRounds(o, scale, round, unit);
    var wanted := Scaled(o, scale, round);
    RationedWithin(o.price, wanted, remaining, round, unit);
    RationedAtMostWanted(o.price, wanted, remaining, round, unit);
    ProductNotNegative(Rationed(o.price, wanted, remaining, round), o.price);
  }

  lemma WantedAtMostAsked(o: Order, scale: real, round: real -> real, unit: real)
    requires o.quantity > 0.0 && 0.0 <= scale <= 1.0 && RoundsDown(round, unit)
    ensures 0.0 <= Scaled(o, scale, round) <= o.quantity
  {
    WantedRounds(o, scale, round, unit);
    Shrinks(o.quantity, scale);
  }

  lemma GivenAtMostAsked(o: Order, scale: real, remaining: real, round: real -> real, unit: real)
    requires o.price > 0.0 && o.quantity > 0.0 && remaining >= 0.0 && 0.0 <= scale <= 1.0 && RoundsDown(round, unit)
    ensures Given(o, scale, remaining, round).quantity <= o.quantity
  {
    WantedAtMostAsked(o, scale, round, unit);
    RationedAtMostWanted(o.price, Scaled(o, scale, round), remaining, round, unit);
  }

  // Every quote the queue can be given is affordable.
  ghost predicate AllAffordable(quote: (Order, real) -> Quote) {
    forall o: Order, remaining {:trigger quote(o, remaining)} ::
      o.price > 0.0 && o.quantity > 0.0 && remaining >= 0.0 ==> Affordable(remaining, quote(o, remaining))
  }

  // Enough for a queue that is only divided up.
  ghost predicate Sane(orders: seq<Order>) { forall o :: o in orders ==> o.price > 0.0 && o.quantity > 0.0 }

  lemma QuotesAreAffordable(scale: real, round: real -> real, unit: real)
    requires scale >= 0.0 && RoundsDown(round, unit)
    ensures AllAffordable(Quoting(scale, round))
  {
    forall o: Order, remaining | o.price > 0.0 && o.quantity > 0.0 && remaining >= 0.0
      ensures Affordable(remaining, Quoting(scale, round)(o, remaining))
    {
      GivenAffordable(o, scale, remaining, round, unit);
    }
  }

  lemma SlipAppended(slips: seq<Slip>, slip: Slip)
    ensures Asked(slips + [slip]) == Asked(slips) + [slip.asked]
    ensures Dollars(FilledAll(slips + [slip])) == Dollars(FilledAll(slips)) + slip.quote.cost
  {
    assert (slips + [slip])[..|slips|] == slips;
    assert (FilledAll(slips) + [Filled(slip)])[..|FilledAll(slips)|] == FilledAll(slips);
  }

  /** Fitting splits the batch: every buy is funded or unfunded, and none is dropped or repeated. */
  lemma {:induction false} FitSplits(queue: seq<Order>, quote: (Order, real) -> Quote, budget: real, minDollars: real)
    ensures var fit := Fit(queue, quote, budget, minDollars);
            multiset(Asked(fit.funded)) + multiset(Asked(fit.unfunded)) == multiset(queue)
  {
    if queue != [] {
      var init, last := queue[..|queue| - 1], queue[|queue| - 1];
      FitSplits(init, quote, budget, minDollars);
      PushedLast(queue);
      AskedServe(Fit(init, quote, budget, minDollars), last, quote, minDollars);
    }
  }

  lemma AskedServe(so_far: Fitted, o: Order, quote: (Order, real) -> Quote, minDollars: real)
    ensures var fit := Serve(so_far, o, quote, minDollars);
            && multiset(Asked(fit.funded)) + multiset(Asked(fit.unfunded))
               == multiset(Asked(so_far.funded)) + multiset(Asked(so_far.unfunded)) + multiset{o}
            && Dollars(FilledAll(fit.funded)) + fit.remaining == Dollars(FilledAll(so_far.funded)) + so_far.remaining
  {
    var fit := Serve(so_far, o, quote, minDollars);
    if |fit.funded| > |so_far.funded| {
      SlipAppended(so_far.funded, fit.funded[|so_far.funded|]);
    } else {
      SlipAppended(so_far.unfunded, fit.unfunded[|so_far.unfunded|]);
    }
  }

  /** What was spent and what is left add up to the budget, and nothing is overspent. */
  lemma {:induction false} FitConserves(queue: seq<Order>, quote: (Order, real) -> Quote, budget: real,
                                        minDollars: real)
    requires Sane(queue) && AllAffordable(quote) && budget >= 0.0
    ensures var fit := Fit(queue, quote, budget, minDollars);
            Dollars(FilledAll(fit.funded)) + fit.remaining == budget && fit.remaining >= 0.0
  {
    if queue != [] {
      var init, last := queue[..|queue| - 1], queue[|queue| - 1];
      FitConserves(init, quote, budget, minDollars);
      var so_far := Fit(init, quote, budget, minDollars);
      assert Affordable(so_far.remaining, quote(last, so_far.remaining));
      AskedServe(so_far, last, quote, minDollars);
    }
  }
  ghost predicate NeverMore(quote: (Order, real) -> Quote) {
    forall o: Order, remaining {:trigger quote(o, remaining)} ::
      o.price > 0.0 && o.quantity > 0.0 && remaining >= 0.0 ==> quote(o, remaining).quantity <= o.quantity
  }

  lemma QuotesNeverMore(scale: real, round: real -> real, unit: real)
    requires 0.0 <= scale <= 1.0 && RoundsDown(round, unit)
    ensures NeverMore(Quoting(scale, round))
  {
    forall o: Order, remaining | o.price > 0.0 && o.quantity > 0.0 && remaining >= 0.0
      ensures Quoting(scale, round)(o, remaining).quantity <= o.quantity
    {
      GivenAtMostAsked(o, scale, remaining, round, unit);
    }
  }

  // What every funded slip can rely on.
  ghost predicate WorthHaving(slip: Slip, minDollars: real) {
    && SHARE_EPSILON < slip.quote.quantity <= slip.asked.quantity && minDollars <= slip.quote.cost
    && (slip.status == Reduced <==> slip.quote.quantity < slip.asked.quantity - SHARE_EPSILON)
  }

  // What every unfunded slip comes to: nothing that would be worth sending.
  ghost predicate NotWorthHaving(slip: Slip, minDollars: real) {
    slip.quote.quantity <= SHARE_EPSILON || slip.quote.cost < minDollars
  }

  lemma ServedWorthHaving(so_far: Fitted, o: Order, quote: (Order, real) -> Quote, minDollars: real)
    requires quote(o, so_far.remaining).quantity <= o.quantity
    ensures forall slip :: slip in Serve(so_far, o, quote, minDollars).funded ==>
              slip in so_far.funded || (slip.asked == o && WorthHaving(slip, minDollars))
    ensures forall slip :: slip in Serve(so_far, o, quote, minDollars).unfunded ==>
              slip in so_far.unfunded || (slip.asked == o && NotWorthHaving(slip, minDollars))
  {
  }

  /** No buy is raised above what was asked, every funded one clears the floor and is marked as reduced
      exactly when it got less, and none is left unfunded that got enough. */
  lemma {:induction false} FitNeverRaises(queue: seq<Order>, quote: (Order, real) -> Quote, budget: real,
                                          minDollars: real)
    requires Sane(queue) && AllAffordable(quote) && NeverMore(quote) && budget >= 0.0
    ensures forall slip :: slip in Fit(queue, quote, budget, minDollars).funded ==>
              slip.asked in queue && WorthHaving(slip, minDollars)
    ensures forall slip :: slip in Fit(queue, quote, budget, minDollars).unfunded ==>
              slip.asked in queue && NotWorthHaving(slip, minDollars)
  {
    if queue != [] {
      var init, last := queue[..|queue| - 1], queue[|queue| - 1];
      assert last in queue && forall o :: o in init ==> o in queue;
      FitNeverRaises(init, quote, budget, minDollars);
      FitConserves(init, quote, budget, minDollars);
      ServedWorthHaving(Fit(init, quote, budget, minDollars), last, quote, minDollars);
    }
  }

  // One more leg: where it ends up, and what it takes out of what is left.
  lemma ServedAtCost(so_far: Fitted, o: Order, quote: (Order, real) -> Quote, minDollars: real)
    ensures var q, fit := quote(o, so_far.remaining), Serve(so_far, o, quote, minDollars);
            && (forall slip :: slip in fit.funded + fit.unfunded ==>
                  slip in so_far.funded + so_far.unfunded || (slip.asked == o && slip.quote == q))
            && (q.cost >= 0.0 ==> so_far.remaining - q.cost <= fit.remaining <= so_far.remaining)
            && (q.cost >= minDollars && (q.quantity <= SHARE_EPSILON ==> q.cost == 0.0) ==>
                  fit.remaining == so_far.remaining - q.cost)
  {
  }

  function Sum(orders: seq<Order>, f: Order -> real): real {
    if orders == [] then 0.0 else Sum(orders[..|orders| - 1], f) + f(orders[|orders| - 1])
  }

  // -- Pro rata ---------------------------------------------------------------------------

  // A queue in which every leg is sure of the money it needs gets what it wants.
  lemma {:induction false} FitUncapped(queue: seq<Order>, quote: (Order, real) -> Quote, want: Order -> Quote,
                                       need: Order -> real, budget: real, minDollars: real)
    requires forall o :: o in queue ==>
             0.0 <= want(o).cost <= need(o) && (want(o).quantity <= SHARE_EPSILON ==> want(o).cost == 0.0)
    requires forall o, left {:trigger quote(o, left)} :: o in queue && left >= need(o) ==> quote(o, left) == want(o)
    requires Sum(queue, need) <= budget
    ensures var fit := Fit(queue, quote, budget, minDollars);
            && fit.remaining >= budget - Sum(queue, need)
            && (forall slip :: slip in fit.funded + fit.unfunded ==> slip.quote == want(slip.asked))
            && (minDollars <= 0.0 ==> fit.remaining == budget - Sum(queue, o => want(o).cost))
  {
    if queue != [] {
      var init, last := queue[..|queue| - 1], queue[|queue| - 1];
      assert last in queue && forall o :: o in init ==> o in queue;
      FitUncapped(init, quote, want, need, budget, minDollars);
      var so_far := Fit(init, quote, budget, minDollars);
      assert quote(last, so_far.remaining) == want(last);
      ServedAtCost(so_far, last, quote, minDollars);
    }
  }

  // A leg scaled and rounded costs its scaled dollars, short of at most one unit's price.
  lemma ScaledCost(o: Order, scale: real, round: real -> real, unit: real)
    requires WellPriced(o) && scale >= 0.0 && RoundsDown(round, unit)
    ensures Scaled(o, scale, round) * o.price <= scale * o.tradeDollars
    ensures scale * o.tradeDollars - Scaled(o, scale, round) * o.price < unit * o.price
  {
    ProductNotNegative(o.quantity, scale);
    var x := o.quantity * scale;
    assert Scaled(o, scale, round) <= x < Scaled(o, scale, round) + unit;
    Reassociate(o.quantity, scale, o.price);
    ProductInOrder(Scaled(o, scale, round), x, o.price);
    StrictlyLess(x, Scaled(o, scale, round), unit, o.price);
  }

  lemma Reassociate(a: real, b: real, c: real)
    ensures (a * b) * c == b * (a * c)
  {
  }

  lemma Distribute(a: real, b: real, c: real)
    ensures a * (b + c) == a * b + a * c
  {
  }

  // What a leg wants in pro-rata mode, the dollars it is sure of, and the price of one more unit.
  function WantOf(scale: real, round: real -> real): Order -> Quote {
    o => Quote(Scaled(o, scale, round), Scaled(o, scale, round) * o.price)
  }
  function NeedOf(scale: real): Order -> real { (o: Order) => scale * o.tradeDollars }
  function UnitPrice(unit: real): Order -> real { (o: Order) => unit * o.price }

  lemma WantWithinNeed(o: Order, scale: real, round: real -> real, unit: real)
    requires WellPriced(o) && scale >= 0.0 && RoundsDown(round, unit)
    ensures var want, need := WantOf(scale, round)(o), NeedOf(scale)(o);
            && 0.0 <= want.cost <= need && need - want.cost < UnitPrice(unit)(o)
            && (want.quantity <= SHARE_EPSILON ==> want.cost == 0.0)
  {
    ScaledCost(o, scale, round, unit);
    WantedRounds(o, scale, round, unit);
    ProductNotNegative(Scaled(o, scale, round), o.price);
  }

  // The cap on what is left never binds where the scaled dollars are there.
  lemma NotCapped(o: Order, scale: real, left: real, round: real -> real, unit: real)
    requires WellPriced(o) && 0.0 <= scale && RoundsDown(round, unit) && left >= NeedOf(scale)(o)
    ensures Quoting(scale, round)(o, left) == WantOf(scale, round)(o)
  {
    ScaledCost(o, scale, round, unit);
  }

  lemma {:induction false} NeedsAddUp(orders: seq<Order>, scale: real)
    ensures Sum(orders, NeedOf(scale)) == scale * Dollars(orders)
  {
    if orders != [] {
      NeedsAddUp(orders[..|orders| - 1], scale);
      Distribute(scale, Dollars(orders[..|orders| - 1]), orders[|orders| - 1].tradeDollars);
    }
  }

  lemma {:induction false} GapsAddUp(orders: seq<Order>, want: Order -> Quote, need: Order -> real, more: Order -> real)
    requires forall o :: o in orders ==> need(o) - want(o).cost < more(o)
    ensures orders != [] ==> Sum(orders, need) - Sum(orders, o => want(o).cost) < Sum(orders, more)
  {
    if orders != [] {
      assert orders[|orders| - 1] in orders;
      GapsAddUp(orders[..|orders| - 1], want, need, more);
    }
  }

  // The abstract form: what is needed is there, and each gap is less than one more unit.
  lemma FitWithin(queue: seq<Order>, quote: (Order, real) -> Quote, want: Order -> Quote, need: Order -> real,
                  more: Order -> real, budget: real, minDollars: real)
    requires forall o :: o in queue ==>
               && 0.0 <= want(o).cost <= need(o) && need(o) - want(o).cost < more(o)
               && (want(o).quantity <= SHARE_EPSILON ==> want(o).cost == 0.0)
    requires forall o, left {:trigger quote(o, left)} :: o in queue && left >= need(o) ==> quote(o, left) == want(o)
    requires Sum(queue, need) == budget && queue != []
    ensures var fit := Fit(queue, quote, budget, minDollars);
            && (forall slip :: slip in fit.funded + fit.unfunded ==> slip.quote == want(slip.asked))
            && 0.0 <= fit.remaining && (minDollars <= 0.0 ==> fit.remaining < Sum(queue, more))
  {
    FitUncapped(queue, quote, want, need, budget, minDollars);
    GapsAddUp(queue, want, need, more);
  }

  lemma WantsAndNeeds(buys: seq<Order>, scale: real, round: real -> real, unit: real)
    requires AllWellPriced(buys) && scale >= 0.0 && RoundsDown(round, unit)
    ensures var want, need, more := WantOf(scale, round), NeedOf(scale), UnitPrice(unit);
            && (forall o :: o in buys ==>
                  && 0.0 <= want(o).cost <= need(o) && need(o) - want(o).cost < more(o)
                  && (want(o).quantity <= SHARE_EPSILON ==> want(o).cost == 0.0))
            && (forall o, left {:trigger Quoting(scale, round)(o, left)} ::
                  o in buys && left >= need(o) ==> Quoting(scale, round)(o, left) == want(o))
  {
    forall o | o in buys
      ensures var want, need, more := WantOf(scale, round)(o), NeedOf(scale)(o), UnitPrice(unit)(o);
              0.0 <= want.cost <= need && need - want.cost < more
                && (want.quantity <= SHARE_EPSILON ==> want.cost == 0.0)
    {
      WantWithinNeed(o, scale, round, unit);
    }
    forall o, left | o in buys && left >= NeedOf(scale)(o)
      ensures Quoting(scale, round)(o, left) == WantOf(scale, round)(o) {
      NotCapped(o, scale, left, round, unit);
    }
  }

  /** In pro-rata mode, when the batch does not fit, the running cap is never hit: every leg gets exactly
      its rounded share, and (with no dollar floor) the money left over is less than the price of one
      more unit of every leg. */
  lemma ProRataNeverCapped(buys: seq<Order>, budget: real, minDollars: real, fractional: bool)
    requires AllWellPriced(buys) && 0.0 <= budget <= Dollars(buys) && Dollars(buys) > 0.0
    ensures var scale, round := Share(buys, budget, ProRata), ToShares(fractional);
            var fit := Fit(buys, Quoting(scale, round), budget, minDollars);
            && 0.0 <= scale <= 1.0
            && (forall slip :: slip in fit.funded + fit.unfunded ==> slip.quote == WantOf(scale, round)(slip.asked))
            && 0.0 <= fit.remaining && (minDollars <= 0.0 ==> fit.remaining < Sum(buys, UnitPrice(Unit(fractional))))
  {
    ShareOfBudget(Dollars(buys), budget);
    SharesRoundDown(fractional);
    ProRataAtScale(buys, Share(buys, budget, ProRata), budget, minDollars, ToShares(fractional), Unit(fractional));
  }

  lemma ProRataAtScale(buys: seq<Order>, scale: real, budget: real, minDollars: real, round: real -> real, unit: real)
    requires AllWellPriced(buys) && scale >= 0.0 && scale * Dollars(buys) == budget && buys != []
             && RoundsDown(round, unit)
    ensures var fit := Fit(buys, Quoting(scale, round), budget, minDollars);
            && (forall slip :: slip in fit.funded + fit.unfunded ==> slip.quote == WantOf(scale, round)(slip.asked))
            && 0.0 <= fit.remaining && (minDollars <= 0.0 ==> fit.remaining < Sum(buys, UnitPrice(unit)))
  {
    NeedsAddUp(buys, scale);
    WantsAndNeeds(buys, scale, round, unit);
    FitWithin(buys, Quoting(scale, round), WantOf(scale, round), NeedOf(scale), UnitPrice(unit), budget, minDollars);
  }

  lemma ShareOfBudget(total: real, budget: real)
    requires 0.0 <= budget <= total && total > 0.0
    ensures 0.0 <= budget / total <= 1.0 && (budget / total) * total == budget
  {
  }

  // -- Greedy -----------------------------------------------------------------------------

  // A leg given less than it asked for leaves less than `more` behind.
  ghost predicate StopsShort(quote: (Order, real) -> Quote, o: Order, more: Order -> real) {
    forall left :: left >= 0.0 ==>
      var q := quote(o, left);
      && 0.0 <= q.cost <= left && (q.quantity <= SHARE_EPSILON ==> q.cost == 0.0)
      && (q.quantity < o.quantity ==> left - q.cost < more(o))
  }

  lemma {:induction false} FitStopsShort(queue: seq<Order>, quote: (Order, real) -> Quote, more: Order -> real,
                                         budget: real, minDollars: real)
    requires budget >= 0.0 && minDollars <= 0.0
    requires forall o :: o in queue ==> StopsShort(quote, o, more)
    ensures var fit := Fit(queue, quote, budget, minDollars);
            && 0.0 <= fit.remaining
            && forall slip :: slip in fit.funded + fit.unfunded && slip.quote.quantity < slip.asked.quantity ==>
                 fit.remaining < more(slip.asked)
  {
    if queue != [] {
      var init, last := queue[..|queue| - 1], queue[|queue| - 1];
      assert last in queue && forall o :: o in init ==> o in queue;
      FitStopsShort(init, quote, more, budget, minDollars);
      ServedAtCost(Fit(init, quote, budget, minDollars), last, quote, minDollars);
    }
  }

  lemma GreedyQuote(o: Order, remaining: real, round: real -> real, unit: real)
    requires WellPriced(o) && remaining >= 0.0 && RoundsDown(round, unit) && round(o.quantity) == o.quantity
    ensures var q := Quoting(1.0, round)(o, remaining);
            && 0.0 <= q.cost <= remaining && (q.quantity <= SHARE_EPSILON ==> q.cost == 0.0)
            && (q.quantity < o.quantity ==> remaining - q.cost < UnitPrice(unit)(o))
  {
    assert o.quantity * 1.0 == o.quantity;
    assert Scaled(o, 1.0, round) == o.quantity;
    RationedWithin(o.price, o.quantity, remaining, round, unit);
    RationedAtMostWanted(o.price, o.quantity, remaining, round, unit);
    RationedLeavesLess(o.price, o.quantity, remaining, round, unit);
    RationedUnits(o.price, o.quantity, remaining, round, unit);
    ProductNotNegative(Rationed(o.price, o.quantity, remaining, round), o.price);
  }

  lemma RationedUnits(price: real, wanted: real, remaining: real, round: real -> real, unit: real)
    requires price > 0.0 && remaining >= 0.0 && RoundsDown(round, unit) && (wanted == 0.0 || wanted >= unit)
    ensures var r := Rationed(price, wanted, remaining, round); r == 0.0 || r >= unit
  {
    if wanted * price > remaining {
      CapRounds(price, remaining, round, unit);
    }
  }

  lemma GreedyStopsShort(queue: seq<Order>, round: real -> real, unit: real)
    requires AllWellPriced(queue) && RoundsDown(round, unit)
    requires forall o :: o in queue ==> round(o.quantity) == o.quantity
    ensures forall o :: o in queue ==> StopsShort(Quoting(1.0, round), o, UnitPrice(unit))
  {
    forall o, left | o in queue && left >= 0.0
      ensures var q := Quoting(1.0, round)(o, left);
              && 0.0 <= q.cost <= left && (q.quantity <= SHARE_EPSILON ==> q.cost == 0.0)
              && (q.quantity < o.quantity ==> left - q.cost < UnitPrice(unit)(o))
    {
      GreedyQuote(o, left, round, unit);
    }
  }

  /** In greedy mode (no dollar floor, requests on the share grid), the money left over cannot buy one
      more unit of any leg that was reduced or dropped. */
  lemma GreedyLeavesNoUnit(buys: seq<Order>, budget: real, minDollars: real, fractional: bool)
    requires AllWellPriced(buys) && budget >= 0.0 && minDollars <= 0.0
    requires forall o :: o in buys ==> OnGrid(o.quantity, fractional)
    ensures var fit := Fit(Queue(buys, Greedy), Quoting(1.0, ToShares(fractional)), budget, minDollars);
            forall slip :: slip in fit.funded + fit.unfunded && slip.quote.quantity < slip.asked.quantity ==>
              fit.remaining < UnitPrice(Unit(fractional))(slip.asked)
  {
    SharesRoundDown(fractional);
    QueueKeeps(buys, Greedy);
    forall o | o in buys ensures ToShares(fractional)(o.quantity) == o.quantity {
      RoundSharesTowardZero(o.quantity, fractional);
    }
    GreedyStopsShort(Queue(buys, Greedy), ToShares(fractional), Unit(fractional));
    FitStopsShort(Queue(buys, Greedy), Quoting(1.0, ToShares(fractional)), UnitPrice(Unit(fractional)), budget,
      minDollars);
  }
}
