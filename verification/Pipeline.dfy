/** Placing a list of intents: sizing them, planning the orders, funding what can be paid for, and sending it. */
module Pipeline {
  import opened Wrappers
  import opened Sizing
  import opened Planning
  import opened Funding
  import opened FundBatch
  import opened PlanEdits
  import opened Submission

  datatype Batch = Batch(planned: seq<Order>, funded: Funded, placements: seq<Placement>, resulting: Book)

  predicate Unpriced(intent: Intent, s: Setting) {
    !intent.kind.Shares? && At(s.prices, intent.symbol, 0.0) <= 0.0
  }

  function PolicyOf(mode: string): Policy { if mode == MODE_INCREMENTAL then Greedy else ProRata }

  function Orders(intents: seq<Intent>, mode: string, s: Setting): seq<Order> { Planned(Targets(intents, mode, s), s) }

  // The account as funding sees it: the cash buffer is a share of equity, clamped to [0, 1].
  function FundingAccount(s: Setting, buyingPower: real, buffer: real, cash: seq<Holding>): Account {
    Account(buyingPower, s.equity * Max(0.0, Min(1.0, buffer)), cash, s.fractional, s.minTradeDollars)
  }

  /** The reserve is the buffer's share of the equity: none where it is negative and at most all; what is funded is cut
      by rank in a list of changes and in proportion in a whole portfolio. */
  lemma FundedWithReserve(s: Setting, buyingPower: real, buffer: real, cash: seq<Holding>)
    ensures FundingAccount(s, buyingPower, buffer, cash)
            == Account(buyingPower,
                       if buffer <= 0.0 then 0.0 else if buffer >= 1.0 then s.equity else s.equity * buffer,
                       cash, s.fractional, s.minTradeDollars)
    ensures PolicyOf("incremental") == Greedy && PolicyOf("target") == ProRata
  {
    if buffer <= 0.0 { assert s.equity * 0.0 == 0.0; }
  }

  /** One call: what was planned, what of it was funded, how the broker took it, and the book it leaves. */
  method PlaceOrders(intents: seq<Intent>, mode: string, s: Setting, buyingPower: real, buffer: real,
                     cash: seq<Holding>, broker: Broker)
    returns (r: Result<Batch, string>)
    ensures r.Ok? <==> && mode in [MODE_TARGET, MODE_INCREMENTAL]
                       && forall i :: i in intents ==> i.kind.Shares? || Priced(s, i.symbol)
    ensures r.Ok? ==>
              var batch := r.value;
              && batch.planned == Orders(intents, mode, s)
              && batch.funded == Fund(batch.planned, FundingAccount(s, buyingPower, buffer, cash), PolicyOf(mode))
              && batch.placements == PlaceAll(batch.funded.fundable, broker)
              && IsResulting(batch.resulting, s.positions, Executed(batch.funded.fundable, broker))
  {
    if exists i :: i in intents && Unpriced(i, s) {
      return Err("No price available");
    }
    var targets := ResolveTargetShares(intents, mode, s);
    if targets.Err? {
      return Err(targets.error);
    }
    var planned := PlanShareOrders(targets.value, s);
    var funded := FundPlannedOrders(planned, FundingAccount(s, buyingPower, buffer, cash), PolicyOf(mode));
    var placements := SubmitPlannedOrders(funded.fundable, broker);
    var resulting := ResultingPositions(s.positions, Taken(placements));
    r := Ok(Batch(planned, funded, placements, resulting));
  }

  // -- From the plan to the broker -------------------------------------------------------------------

  // Orders that funding does not touch: the sales, and the buys of a batch that fits.
  ghost predicate GoesOut(o: Order, planned: seq<Order>, a: Account) {
    o in planned && (o.side.Sell? || Fits(planned, a))
  }

  /** Such an order goes out alone: as sent, its symbol changes by exactly that order at two decimals. */
  lemma PlannedOrderGoesOut(planned: seq<Order>, a: Account, policy: Policy, o: Order, broker: Broker)
    requires AllWellPriced(planned) && OnePerSymbol(planned) && GoesOut(o, planned, a) && Takes(broker, o.symbol)
    ensures Net(Executed(Fund(planned, a, policy).fundable, broker), o.symbol) == Signed(AsSent(o))
  {
    var sleeve, sells, sent := Sleeve(planned, a), Only(planned, Sell), Sent(planned, a, policy);
    PlannedSellsSurvive(planned, a, policy);
    SentNetOfNone(sleeve, o.symbol);
    if o.side.Sell? { SaleAlone(planned, a, policy, o); } else { BuyAlone(planned, o); }
    SentNetOfBoth(sleeve + sells, sent, o.symbol);
    SentNetOfBoth(sleeve, sells, o.symbol);
    ExecutedAsSent(Fund(planned, a, policy).fundable, o.symbol, broker);
  }

  lemma SaleAlone(planned: seq<Order>, a: Account, policy: Policy, sale: Order)
    requires AllWellPriced(planned) && OnePerSymbol(planned) && sale in planned && sale.side.Sell?
    ensures sale in Only(planned, Sell)
    ensures SentNet(Only(planned, Sell), sale.symbol) == Signed(AsSent(sale))
    ensures SentNet(Sent(planned, a, policy), sale.symbol) == 0.0
  {
    var sent := Sent(planned, a, policy);
    OnlyKeepsSide(planned, Sell);
    SentNetOfOne(Only(planned, Sell), sale);
    forall o | o in sent ensures o.symbol != sale.symbol {
      SentBuysWerePlanned(planned, a, policy, o);
      var p :| p in planned && p.side.Buy? && NoLarger(o, p);
      DifferentOrders(planned, p, sale);
    }
    SentNetOfNone(sent, sale.symbol);
  }

  lemma BuyAlone(planned: seq<Order>, buy: Order)
    requires OnePerSymbol(planned) && buy in planned && buy.side.Buy?
    ensures buy in Only(planned, Buy)
    ensures SentNet(Only(planned, Sell), buy.symbol) == 0.0
    ensures SentNet(Only(planned, Buy), buy.symbol) == Signed(AsSent(buy))
  {
    OnlyKeepsSide(planned, Sell);
    OnlyKeepsSide(planned, Buy);
    forall o | o in Only(planned, Sell) ensures o.symbol != buy.symbol {
      DifferentOrders(planned, o, buy);
    }
    SentNetOfNone(Only(planned, Sell), buy.symbol);
    SentNetOfOne(Only(planned, Buy), buy);
  }

  lemma DifferentOrders(orders: seq<Order>, p: Order, o: Order)
    requires OnePerSymbol(orders) && p in orders && o in orders && p != o
    ensures p.symbol != o.symbol
  {
    var i :| 0 <= i < |orders| && orders[i] == p;
    var j :| 0 <= j < |orders| && orders[j] == o;
    if i < j { assert orders[i].symbol != orders[j].symbol; } else { assert orders[j].symbol != orders[i].symbol; }
  }

  /** A symbol without a planned order is traded only if it is sold as a cash equivalent. */
  lemma UnplannedOnlyFromTheSleeve(planned: seq<Order>, a: Account, policy: Policy, x: Symbol)
    requires AllWellPriced(planned) && Untouched(planned, x)
    ensures forall o :: o in Fund(planned, a, policy).fundable && o.symbol == x ==> o in Sleeve(planned, a)
    ensures NotCash(a, x) ==> Untouched(Fund(planned, a, policy).fundable, x)
  {
    SleeveIsCovered(planned, a);
    OnlyKeepsSide(planned, Sell);
    forall o | o in Fund(planned, a, policy).fundable && o.symbol == x ensures o in Sleeve(planned, a) {
      if o in Sent(planned, a, policy) {
        SentBuysWerePlanned(planned, a, policy, o);
      }
    }
  }

  ghost predicate NotCash(a: Account, x: Symbol) { forall h :: h in a.cash ==> h.symbol != x }

  lemma UnplannedStays(planned: seq<Order>, a: Account, policy: Policy, x: Symbol, broker: Broker)
    requires AllWellPriced(planned) && Untouched(planned, x) && NotCash(a, x) && Takes(broker, x)
    ensures Net(Executed(Fund(planned, a, policy).fundable, broker), x) == 0.0
  {
    UnplannedOnlyFromTheSleeve(planned, a, policy, x);
    SentNetOfNone(Fund(planned, a, policy).fundable, x);
    ExecutedAsSent(Fund(planned, a, policy).fundable, x, broker);
  }

  // Where a symbol ends up once the batch for these targets is sent and taken.
  function Ends(targets: Book, s: Setting, a: Account, policy: Policy, broker: Broker, x: Symbol): real {
    At(s.positions, x, 0.0) + Net(Executed(Fund(Planned(targets, s), a, policy).fundable, broker), x)
  }

  // A planned order for the symbol that funding does not touch.
  ghost predicate LegGoesOut(targets: Book, s: Setting, a: Account, x: Symbol) {
    Leg(x, targets, s).Some? && (Leg(x, targets, s).value.side.Sell? || Fits(Planned(targets, s), a))
  }

  lemma LegEnds(targets: Book, s: Setting, a: Account, policy: Policy, broker: Broker, x: Symbol, current: real,
                target: real)
    requires current == At(s.positions, x, 0.0) && target == At(targets, x, current) && Takes(broker, x)
    requires LegGoesOut(targets, s, a, x)
    ensures Ends(targets, s, a, policy, broker, x) == current + RoundCents(target - current)
  {
    LegSent(targets, s, a, policy, broker, x, Leg(x, targets, s).value);
    LegMoves(x, targets, s, current, target);
  }

  lemma LegMoves(x: Symbol, targets: Book, s: Setting, current: real, target: real)
    requires current == At(s.positions, x, 0.0) && target == At(targets, x, current) && Leg(x, targets, s).Some?
    ensures RoundCents(target - current) == Signed(AsSent(Leg(x, targets, s).value))
  {
    SentLegReachesTarget(x, targets, s);
  }

  lemma LegSent(targets: Book, s: Setting, a: Account, policy: Policy, broker: Broker, x: Symbol, o: Order)
    requires LegGoesOut(targets, s, a, x) && Leg(x, targets, s) == Some(o) && Takes(broker, x)
    ensures Ends(targets, s, a, policy, broker, x) == At(s.positions, x, 0.0) + Signed(AsSent(o))
  {
    PlannedWellPriced(targets, s);
    PlannedIsTheLegs(targets, s);
    LegNamesItsSymbol(x, targets, s);
    PlannedOrderGoesOut(Planned(targets, s), a, policy, o, broker);
  }

  lemma NoLegEnds(targets: Book, s: Setting, a: Account, policy: Policy, broker: Broker, x: Symbol)
    requires Leg(x, targets, s).None? && NotCash(a, x) && Takes(broker, x)
    ensures Ends(targets, s, a, policy, broker, x) == At(s.positions, x, 0.0)
  {
    PlannedWellPriced(targets, s);
    PlannedIsTheLegs(targets, s);
    UnplannedStays(Planned(targets, s), a, policy, x, broker);
  }

  // The cash equivalents are known by the same number of shares as the positions.
  ghost predicate CashAgrees(a: Account, s: Setting, x: Symbol) {
    forall h :: h in a.cash && h.symbol == x ==> h.shares == At(s.positions, x, 0.0)
  }

  ghost predicate SentAsNothing(orders: seq<Order>, x: Symbol) {
    forall o :: o in orders && o.symbol == x ==> OrderQuantity(o.quantity) == 0.0
  }

  lemma {:induction false} NetOfNothing(orders: seq<Order>, x: Symbol)
    requires SentAsNothing(orders, x)
    ensures SentNet(orders, x) == 0.0
  {
    if orders != [] {
      assert orders[|orders| - 1] in orders;
      NetOfNothing(orders[..|orders| - 1], x);
    }
  }

  lemma NothingOfNothing(o: Order, h: Holding)
    requires OutOrCents(o, h) && RoundCents(h.shares) == 0.0
    ensures OrderQuantity(o.quantity) == 0.0
  {
    OrderQuantityRounds(o.quantity);
    RoundCentsFixes(o.quantity);
  }

  lemma SleeveSentAsNothing(planned: seq<Order>, s: Setting, a: Account, x: Symbol)
    requires CashAgrees(a, s, x) && RoundCents(At(s.positions, x, 0.0)) == 0.0
    ensures SentAsNothing(Sleeve(planned, a), x)
  {
    forall o | o in Sleeve(planned, a) && o.symbol == x ensures OrderQuantity(o.quantity) == 0.0 {
      SleeveOutOrCents(planned, a, o);
      var h :| h in a.cash && Eligible(h, Symbols(planned)) && OutOrCents(o, h);
      NothingOfNothing(o, h);
    }
  }

  // Without an order, what rounds to nothing stays where it is, even as a cash equivalent.
  lemma CrumbStays(targets: Book, s: Setting, a: Account, policy: Policy, broker: Broker, x: Symbol)
    requires Leg(x, targets, s).None? && CashAgrees(a, s, x) && Takes(broker, x)
             && RoundCents(At(s.positions, x, 0.0)) == 0.0
    ensures Ends(targets, s, a, policy, broker, x) == At(s.positions, x, 0.0)
  {
    var planned := Planned(targets, s);
    PlannedWellPriced(targets, s);
    PlannedIsTheLegs(targets, s);
    UnplannedOnlyFromTheSleeve(planned, a, policy, x);
    SleeveSentAsNothing(planned, s, a, x);
    NetOfNothing(Fund(planned, a, policy).fundable, x);
    ExecutedAsSent(Fund(planned, a, policy).fundable, x, broker);
  }

  // A priced long position that is aimed at zero.
  ghost predicate AimedAtZero(targets: Book, s: Setting, x: Symbol) {
    Priced(s, x) && x in s.positions && s.positions[x] > SHARE_EPSILON && x in targets && targets[x] == 0.0
  }

  // The order it gets is a sale, and it gets one unless the account rounds it to nothing.
  lemma ClosingLegSells(targets: Book, s: Setting, x: Symbol)
    requires AimedAtZero(targets, s, x)
    ensures var leg := Leg(x, targets, s);
            && (leg.Some? ==> leg.value.side.Sell?)
            && (leg.None? ==> RoundCents(s.positions[x]) == 0.0)
            && (OnGrid(s.positions[x], true) ==> leg.Some?)
  {
    var current := s.positions[x];
    assert 0.0 - current == -current;
    RoundCentsOdd(current);
    RoundCentsFixes(current);
    LegReachesTarget(x, targets, s);
    if Leg(x, targets, s).None? {
      assert Closing(current, 0.0);
      RoundedToNothing(current);
    }
  }

  lemma CentsToZero(current: real)
    ensures RoundCents(0.0 - current) == -RoundCents(current)
  {
    assert 0.0 - current == -current;
    RoundCentsOdd(current);
  }

  /** Aimed at zero, a holding keeps exactly what rounding it to cents leaves, on a whole-share account too. */
  lemma AimedAtZeroLeaves(targets: Book, s: Setting, a: Account, policy: Policy, broker: Broker, x: Symbol)
    requires AimedAtZero(targets, s, x) && Takes(broker, x) && (CashAgrees(a, s, x) || OnGrid(s.positions[x], true))
    ensures Ends(targets, s, a, policy, broker, x) == s.positions[x] - RoundCents(s.positions[x])
  {
    ClosingLegSells(targets, s, x);
    if Leg(x, targets, s).Some? {
      SoldToZero(targets, s, a, policy, broker, x, s.positions[x], targets[x]);
    } else {
      CrumbStays(targets, s, a, policy, broker, x);
    }
  }

  lemma SoldToZero(targets: Book, s: Setting, a: Account, policy: Policy, broker: Broker, x: Symbol, current: real,
                   target: real)
    requires current == At(s.positions, x, 0.0) && target == At(targets, x, current) && target == 0.0
             && Takes(broker, x)
    requires Leg(x, targets, s).Some? && Leg(x, targets, s).value.side.Sell?
    ensures Ends(targets, s, a, policy, broker, x) == current - RoundCents(current)
  {
    LegEnds(targets, s, a, policy, broker, x, current, target);
    LeftOver(Ends(targets, s, a, policy, broker, x), current, target);
  }

  lemma LeftOver(ends: real, current: real, target: real)
    requires ends == current + RoundCents(target - current) && target == 0.0
    ensures ends == current - RoundCents(current)
  {
    CentsToZero(current);
  }

  // -- Whole portfolios --------------------------------------------------------------------------------

  // The long, priced holding a list of intents says nothing about.
  ghost predicate Dropped(intents: seq<Intent>, s: Setting, x: Symbol) {
    && Deciding(intents, x, s).None? && Priced(s, x) && x in s.positions && s.positions[x] > SHARE_EPSILON
  }

  lemma DroppedIsAimedAtZero(intents: seq<Intent>, s: Setting, x: Symbol)
    requires Dropped(intents, s, x)
    ensures AimedAtZero(Targets(intents, MODE_TARGET, s), s, x)
  {
    TargetDecidedByLastIntent(intents, MODE_TARGET, s, x);
  }

  /** When the intents are the whole portfolio, a priced long holding they leave out that is on the cent grid
      ends at zero, however small it is and however the batch is funded. */
  lemma DroppedHoldingEndsAtZero(intents: seq<Intent>, s: Setting, x: Symbol, a: Account, policy: Policy,
                                 broker: Broker)
    requires Dropped(intents, s, x) && Takes(broker, x) && OnGrid(s.positions[x], true)
    ensures Ends(Targets(intents, MODE_TARGET, s), s, a, policy, broker, x) == 0.0
  {
    DroppedIsAimedAtZero(intents, s, x);
    AimedAtZeroLeaves(Targets(intents, MODE_TARGET, s), s, a, policy, broker, x);
    RoundCentsFixes(s.positions[x]);
  }

  /** On every account, a dropped holding ends at what rounding to cents leaves of it: at zero exactly when it is on
      the cent grid, and short exactly when it rounds up. A cash equivalent does too, if the two counts agree. */
  lemma DroppedHoldingEndsExactly(intents: seq<Intent>, s: Setting, x: Symbol, a: Account, policy: Policy,
                                  broker: Broker)
    requires Dropped(intents, s, x) && Takes(broker, x) && CashAgrees(a, s, x)
    ensures var ends := Ends(Targets(intents, MODE_TARGET, s), s, a, policy, broker, x);
            && ends == s.positions[x] - RoundCents(s.positions[x])
            && (ends == 0.0 <==> OnGrid(s.positions[x], true))
            && (ends < 0.0 <==> RoundsUp(s.positions[x]))
  {
    DroppedIsAimedAtZero(intents, s, x);
    AimedAtZeroLeaves(Targets(intents, MODE_TARGET, s), s, a, policy, broker, x);
    RoundCentsFixes(s.positions[x]);
    RoundCentsUp(s.positions[x]);
  }

  /** So on a whole-share account 0.333 shares leave 0.003, 0.004 are not sold at all, and 0.006 end short. */
  lemma RemaindersOffTheGrid(s: Setting, x: Symbol, a: Account, policy: Policy, broker: Broker)
    requires Dropped([], s, x) && Takes(broker, x) && CashAgrees(a, s, x)
    ensures var ends := Ends(Targets([], MODE_TARGET, s), s, a, policy, broker, x);
            && (s.positions[x] == 0.333 ==> ends == 0.003)
            && (s.positions[x] == 0.004 ==> ends == 0.004)
            && (s.positions[x] == 0.006 ==> ends == -0.004)
  {
    DroppedHoldingEndsExactly([], s, x, a, policy, broker);
    SomeCents();
  }

  lemma SomeCents()
    ensures RoundCents(0.333) == 0.33 && RoundCents(0.004) == 0.0 && RoundCents(0.006) == 0.01
  {
    assert RoundHalfEven(33.3) == 33 && RoundHalfEven(0.4) == 0 && RoundHalfEven(0.6) == 1;
  }

  // -- Edits -----------------------------------------------------------------------------------------

  // The veto holds: it declines a change, or the position is one that is left alone.
  predicate Holding(plan: Plan, s: Setting, x: Symbol) { plan.mode == MODE_TARGET ==> Honoured(x, s) }

  lemma HoldsExactly(plan: Plan, edits: seq<Edit>, s: Setting, x: Symbol)
    requires AsksFor(plan, edits, s, x, Skip)
    ensures Leg(x, EditedTargets(plan, edits, s), s).None? <==> Holding(plan, s, x)
  {
    if plan.mode == MODE_TARGET {
      SkipHonouredExactly(plan, edits, s, x);
    } else {
      SkipMeansNoOrder(plan, edits, s, x);
    }
  }

  /** An accepted `skip` that is honoured stays honoured: funding leaves the symbol alone, unless it is a cash
      equivalent. And of a long position, or in a batch that fits, no other is left alone. */
  lemma SkippedIsLeftAlone(plan: Plan, edits: seq<Edit>, s: Setting, x: Symbol, a: Account)
    requires AsksFor(plan, edits, s, x, Skip) && NotCash(a, x)
    ensures var targets := EditedTargets(plan, edits, s);
            var left_alone := Untouched(Fund(Planned(targets, s), a, PolicyOf(plan.mode)).fundable, x);
            && (Holding(plan, s, x) ==> left_alone)
            && (left_alone && (At(s.positions, x, 0.0) >= 0.0 || Fits(Planned(targets, s), a)) ==> Holding(plan, s, x))
  {
    var targets := EditedTargets(plan, edits, s);
    HoldsExactly(plan, edits, s, x);
    if Holding(plan, s, x) {
      NoLegUntouched(targets, s, a, PolicyOf(plan.mode), x);
    } else if At(s.positions, x, 0.0) >= 0.0 || Fits(Planned(targets, s), a) {
      SkippedLegGoesOut(plan, edits, s, x, a);
      LegTouches(targets, s, a, PolicyOf(plan.mode), x);
    }
  }

  lemma LegTouches(targets: Book, s: Setting, a: Account, policy: Policy, x: Symbol)
    requires LegGoesOut(targets, s, a, x)
    ensures !Untouched(Fund(Planned(targets, s), a, policy).fundable, x)
  {
    var o := Leg(x, targets, s).value;
    LegNamesItsSymbol(x, targets, s);
    PlannedIsTheLegs(targets, s);
    OnlyKeepsSide(Planned(targets, s), Sell);
    OnlyKeepsSide(Planned(targets, s), Buy);
    assert o in Only(Planned(targets, s), o.side);
    assert o in Fund(Planned(targets, s), a, policy).fundable;
  }

  lemma NoLegUntouched(targets: Book, s: Setting, a: Account, policy: Policy, x: Symbol)
    requires Leg(x, targets, s).None? && NotCash(a, x)
    ensures Untouched(Fund(Planned(targets, s), a, policy).fundable, x)
  {
    PlannedIsTheLegs(targets, s);
    PlannedWellPriced(targets, s);
    UnplannedOnlyFromTheSleeve(Planned(targets, s), a, policy, x);
  }

  // A long position that is not left alone is sold down.
  lemma SkippedLegGoesOut(plan: Plan, edits: seq<Edit>, s: Setting, x: Symbol, a: Account)
    requires AsksFor(plan, edits, s, x, Skip) && !Holding(plan, s, x)
    requires At(s.positions, x, 0.0) >= 0.0 || Fits(Planned(EditedTargets(plan, edits, s), s), a)
    ensures LegGoesOut(EditedTargets(plan, edits, s), s, a, x)
  {
    var current := At(s.positions, x, 0.0);
    HoldsExactly(plan, edits, s, x);
    SkipTarget(plan, edits, s, x);
    PinnedTowardZero(current, s);
    SellsWhenAbove(x, EditedTargets(plan, edits, s), s);
    if current >= 0.0 && PinnedShares(current, s) == current { NoMove(current, s.fractional); }
  }

  // Where a vetoed position ends up: where it was, or moved to its grid at two decimals.
  function SkippedEnd(current: real, pinned: real, held: bool): real {
    if held then current else current + RoundCents(pinned - current)
  }

  /** As sent, a vetoed position that is no cash equivalent ends where it was if the veto is honoured, and otherwise
      moved to its grid at two decimals. So it stays put exactly if the veto is honoured or what it would move by
      rounds to nothing; and a long one ends short exactly if it is pinned to nothing and rounds up. */
  lemma SkippedEndsExactly(plan: Plan, edits: seq<Edit>, s: Setting, x: Symbol, a: Account, broker: Broker)
    requires AsksFor(plan, edits, s, x, Skip) && NotCash(a, x) && Takes(broker, x)
    requires At(s.positions, x, 0.0) >= 0.0 || Fits(Planned(EditedTargets(plan, edits, s), s), a)
    ensures var current := At(s.positions, x, 0.0);
            var ends := Ends(EditedTargets(plan, edits, s), s, a, PolicyOf(plan.mode), broker, x);
            && ends == SkippedEnd(current, PinnedShares(current, s), Holding(plan, s, x))
            && (ends == current <==> Holding(plan, s, x) || RoundCents(GridGap(current, s)) == 0.0)
            && (current >= 0.0 ==> (ends < 0.0 <==> plan.mode == MODE_TARGET && SlipsUnder(x, current, s)))
  {
    var current := At(s.positions, x, 0.0);
    SkippedEnds(plan, edits, s, x, a, broker, current);
    SkippedEndFacts(plan, x, current, s);
  }

  // A long position that is pinned to nothing and rounds up.
  predicate SlipsUnder(x: Symbol, current: real, s: Setting) {
    Priced(s, x) && PinnedShares(current, s) == 0.0 && RoundsUp(current)
  }

  lemma SkippedEnds(plan: Plan, edits: seq<Edit>, s: Setting, x: Symbol, a: Account, broker: Broker, current: real)
    requires AsksFor(plan, edits, s, x, Skip) && NotCash(a, x) && Takes(broker, x) && current == At(s.positions, x, 0.0)
    requires current >= 0.0 || Fits(Planned(EditedTargets(plan, edits, s), s), a)
    ensures Ends(EditedTargets(plan, edits, s), s, a, PolicyOf(plan.mode), broker, x)
            == SkippedEnd(current, PinnedShares(current, s), Holding(plan, s, x))
  {
    var targets, pinned := EditedTargets(plan, edits, s), PinnedShares(current, s);
    HoldsExactly(plan, edits, s, x);
    if Holding(plan, s, x) {
      LeftAlone(targets, s, a, PolicyOf(plan.mode), broker, x, current, pinned);
    } else {
      SkippedLegGoesOut(plan, edits, s, x, a);
      SkipTarget(plan, edits, s, x);
      Moved(targets, s, a, PolicyOf(plan.mode), broker, x, current, pinned);
    }
  }

  lemma LeftAlone(targets: Book, s: Setting, a: Account, policy: Policy, broker: Broker, x: Symbol, current: real,
                  pinned: real)
    requires NotCash(a, x) && Takes(broker, x) && current == At(s.positions, x, 0.0) && Leg(x, targets, s).None?
    ensures Ends(targets, s, a, policy, broker, x) == SkippedEnd(current, pinned, true)
  {
    NoLegEnds(targets, s, a, policy, broker, x);
  }

  lemma Moved(targets: Book, s: Setting, a: Account, policy: Policy, broker: Broker, x: Symbol, current: real,
              pinned: real)
    requires Takes(broker, x) && current == At(s.positions, x, 0.0) && LegGoesOut(targets, s, a, x)
             && At(targets, x, current) == pinned
    ensures Ends(targets, s, a, policy, broker, x) == SkippedEnd(current, pinned, false)
  {
    LegEnds(targets, s, a, policy, broker, x, current, pinned);
    MovedBy(Ends(targets, s, a, policy, broker, x), current, pinned);
  }

  lemma MovedBy(ends: real, current: real, pinned: real)
    requires ends == current + RoundCents(pinned - current)
    ensures ends == SkippedEnd(current, pinned, false)
  {
  }

  lemma SkippedEndFacts(plan: Plan, x: Symbol, current: real, s: Setting)
    requires current == At(s.positions, x, 0.0)
    ensures var ends := SkippedEnd(current, PinnedShares(current, s), Holding(plan, s, x));
            && (ends == current <==> Holding(plan, s, x) || RoundCents(GridGap(current, s)) == 0.0)
            && (current >= 0.0 ==> (ends < 0.0 <==> plan.mode == MODE_TARGET && SlipsUnder(x, current, s)))
  {
    StaysByRounding(current, s);
    if current >= 0.0 { SlipsUnderVeto(x, current, s); }
  }

  lemma StaysByRounding(current: real, s: Setting)
    ensures RoundCents(PinnedShares(current, s) - current) == 0.0 <==> RoundCents(GridGap(current, s)) == 0.0
  {
    var gap := GridGap(current, s);
    PinnedTowardZero(current, s);
    RoundCentsOdd(gap);
    assert PinnedShares(current, s) - current in {gap, -gap};
  }

  // Moving a long position to its grid takes it below zero only from within a cent of nothing.
  lemma SlipsUnderVeto(x: Symbol, current: real, s: Setting)
    requires current == At(s.positions, x, 0.0) >= 0.0
    ensures var pinned := PinnedShares(current, s);
            && (current + RoundCents(pinned - current) < 0.0 <==> pinned == 0.0 && RoundsUp(current))
            && (SlipsUnder(x, current, s) ==> !Honoured(x, s))
  {
    var pinned := PinnedShares(current, s);
    PinnedTowardZero(current, s);
    PastWithinACent(current, pinned);
    RoundCentsOdd(current - pinned);
    assert pinned - current == -(current - pinned);
    assert current + RoundCents(pinned - current) == pinned - Past(current, pinned);
    if pinned > 0.0 { PinnedToACent(current, s); }
    RoundCentsUp(current);
    if pinned == 0.0 && RoundsUp(current) { DriftOfAll(current, s); }
  }

  lemma PinnedToACent(current: real, s: Setting)
    requires PinnedShares(current, s) > 0.0
    ensures PinnedShares(current, s) >= 0.01
  {
    var cents := s.fractional && current >= 0.0;
    var n := Truncate(current * Scale(cents));
    assert PinnedShares(current, s) * Scale(cents) == n as real;
    assert n >= 1;
  }

  lemma DriftOfAll(current: real, s: Setting)
    requires current >= 0.0 && PinnedShares(current, s) == 0.0 && RoundsUp(current)
    ensures SkipDrift(current, s) > SHARE_EPSILON
  {
    RoundCentsUp(current);
    assert GridGap(current, s) == current;
    var n := RoundHalfEven(current * 100.0);
    assert RoundCents(current) * 100.0 == n as real;
    assert n >= 1;
  }

  lemma SixThousandths(s: Setting, plan: Plan)
    requires s.positions == map["X" := 0.006] && s.prices == map["X" := 100.0] && !s.fractional
             && plan.mode == MODE_TARGET
    ensures SkippedEnd(0.006, PinnedShares(0.006, s), Holding(plan, s, "X")) == -0.004
  {
    PinnedSixThousandths(s);
    SlipsUnderVeto("X", 0.006, s);
  }

  lemma PinnedSixThousandths(s: Setting)
    requires !s.fractional
    ensures PinnedShares(0.006, s) == 0.0 && RoundsUp(0.006) && RoundCents(0.0 - 0.006) == -0.01
  {
    assert RoundHalfEven(-0.6) == -1;
  }

  /** So on a whole-share account too, 0.006 shares under `skip` end at -0.004. */
  lemma SkippedHoldingEndsShort(s: Setting, a: Account, broker: Broker)
    requires s.positions == map["X" := 0.006] && s.prices == map["X" := 100.0] && !s.fractional
    requires NotCash(a, "X") && Takes(broker, "X")
    ensures var plan := Plan([], MODE_TARGET, false); var edits := [Edit("skip", "X")];
            && AsksFor(plan, edits, s, "X", Skip)
            && Ends(EditedTargets(plan, edits, s), s, a, PolicyOf(plan.mode), broker, "X") == -0.004
  {
    var plan, edits := Plan([], MODE_TARGET, false), [Edit("skip", "X")];
    LoneEdit(edits[0], plan.mode, s.positions);
    SkippedEnds(plan, edits, s, "X", a, broker, 0.006);
    SixThousandths(s, plan);
  }

  // The long positions an `exit` takes to zero: those on the cent grid, or, as a change, whole ones.
  predicate Exitable(current: real, mode: string) { OnGrid(current, mode == MODE_TARGET) }

  /** An accepted `exit` takes an exitable priced long to zero, through funding and sending, on every account and
      in both modes; and if it is no cash equivalent, it ends at zero only then. */
  lemma ExitedLongEndsAtZero(plan: Plan, edits: seq<Edit>, s: Setting, x: Symbol, a: Account, broker: Broker)
    requires AsksFor(plan, edits, s, x, Exit)
    requires Priced(s, x) && At(s.positions, x, 0.0) > SHARE_EPSILON && Takes(broker, x)
    ensures var ends := Ends(EditedTargets(plan, edits, s), s, a, PolicyOf(plan.mode), broker, x);
            && (Exitable(s.positions[x], plan.mode) ==> ends == 0.0)
            && (NotCash(a, x) && ends == 0.0 ==> Exitable(s.positions[x], plan.mode))
  {
    var targets := EditedTargets(plan, edits, s);
    ExitTarget(plan, edits, s, x);
    ExitIsListed(plan, edits, s, x);
    if plan.mode == MODE_TARGET {
      ClosedEnds(targets, s, a, PolicyOf(plan.mode), broker, x);
    } else {
      ChangeEnds(targets, s, a, PolicyOf(plan.mode), broker, x);
    }
  }

  lemma ClosedEnds(targets: Book, s: Setting, a: Account, policy: Policy, broker: Broker, x: Symbol)
    requires AimedAtZero(targets, s, x) && Takes(broker, x)
    ensures OnGrid(s.positions[x], true) ==> Ends(targets, s, a, policy, broker, x) == 0.0
    ensures NotCash(a, x) && Ends(targets, s, a, policy, broker, x) == 0.0 ==> OnGrid(s.positions[x], true)
  {
    RoundCentsFixes(s.positions[x]);
    if NotCash(a, x) || OnGrid(s.positions[x], true) {
      AimedAtZeroLeaves(targets, s, a, policy, broker, x);
    }
  }

  lemma ExitIsListed(plan: Plan, edits: seq<Edit>, s: Setting, x: Symbol)
    requires AsksFor(plan, edits, s, x, Exit)
    ensures x in EditedTargets(plan, edits, s)
  {
    EditsDecide(plan, edits, x, s);
    TargetDecidedByLastIntent(EditedIntents(plan, edits, s.positions), plan.mode, s, x);
  }

  // A long position reduced by its whole shares ends at zero where it is a whole number.
  lemma ChangeEnds(targets: Book, s: Setting, a: Account, policy: Policy, broker: Broker, x: Symbol)
    requires Priced(s, x) && x in s.positions && s.positions[x] > SHARE_EPSILON && Takes(broker, x)
    requires x in targets && targets[x] == s.positions[x] + RoundShares(-s.positions[x], false)
    ensures OnGrid(s.positions[x], false) ==> Ends(targets, s, a, policy, broker, x) == 0.0
    ensures NotCash(a, x) && Ends(targets, s, a, policy, broker, x) == 0.0 ==> OnGrid(s.positions[x], false)
  {
    var current := s.positions[x];
    WholeReduction(current);
    if OnGrid(current, false) {
      AimedAtZeroLeaves(targets, s, a, policy, broker, x);
    } else if NotCash(a, x) {
      FractionStays(targets, s, a, policy, broker, x);
    }
  }

  lemma WholeReduction(current: real)
    requires current > 0.0
    ensures var left := current + RoundShares(-current, false);
            if OnGrid(current, false) then left == 0.0 && OnGrid(current, true) && RoundCents(current) == current
            else 0.0 < left <= current && OnGrid(left - current, true)
  {
    RoundSharesTowardZero(-current, false);
    SharesOnCents(-current, false);
    GridNegated(current, false);
    if OnGrid(current, false) {
      WholeIsOnCents(current);
      RoundCentsFixes(current);
    }
  }

  lemma FractionStays(targets: Book, s: Setting, a: Account, policy: Policy, broker: Broker, x: Symbol)
    requires Priced(s, x) && x in s.positions && s.positions[x] > SHARE_EPSILON && Takes(broker, x) && NotCash(a, x)
    requires x in targets && 0.0 < targets[x] <= s.positions[x] && OnGrid(targets[x] - s.positions[x], true)
    ensures Ends(targets, s, a, policy, broker, x) != 0.0
  {
    if Leg(x, targets, s).Some? {
      ReductionSells(targets, s, x);
      SoldToTarget(targets, s, a, policy, broker, x, s.positions[x], targets[x]);
    } else {
      NoLegEnds(targets, s, a, policy, broker, x);
    }
  }

  lemma SoldToTarget(targets: Book, s: Setting, a: Account, policy: Policy, broker: Broker, x: Symbol, current: real,
                     target: real)
    requires current == At(s.positions, x, 0.0) && target == At(targets, x, current) && Takes(broker, x)
    requires Leg(x, targets, s).Some? && Leg(x, targets, s).value.side.Sell? && OnGrid(target - current, true)
    ensures Ends(targets, s, a, policy, broker, x) == target
  {
    LegEnds(targets, s, a, policy, broker, x, current, target);
    Arrived(Ends(targets, s, a, policy, broker, x), current, target);
  }

  lemma Arrived(ends: real, current: real, target: real)
    requires ends == current + RoundCents(target - current) && OnGrid(target - current, true)
    ensures ends == target
  {
    RoundCentsFixes(target - current);
  }

  lemma ReductionSells(targets: Book, s: Setting, x: Symbol)
    requires x in s.positions && x in targets && targets[x] <= s.positions[x]
             && OnGrid(targets[x] - s.positions[x], true)
    requires Leg(x, targets, s).Some?
    ensures Leg(x, targets, s).value.side.Sell?
  {
    RoundCentsFixes(targets[x] - s.positions[x]);
  }

  // -- Cash ------------------------------------------------------------------------------------------

  /** From positions and cash equivalents on the cent grid the batch is sent as it was funded, so every order
      the broker is asked for is paid for: cash stays above the reserve, or what there was, at every point. */
  lemma SentBatchKeepsReserve(intents: seq<Intent>, mode: string, s: Setting, a: Account, policy: Policy, i: nat)
    requires mode in [MODE_TARGET, MODE_INCREMENTAL] && BookOnCents(s.positions)
             && forall h :: h in a.cash ==> OnGrid(h.shares, true)
    requires i <= |Fund(Orders(intents, mode, s), a, policy).fundable|
    ensures var fundable := Fund(Orders(intents, mode, s), a, policy).fundable;
            && AllAsSent(fundable) == fundable
            && Cash(a.buyingPower, AllAsSent(fundable)[..i])
              >= Min(a.buyingPower, Max(a.reserve, 0.0)) - FUNDING_EPSILON
  {
    TargetsOnCents(intents, mode, s);
    PlannedOnCents(Targets(intents, mode, s), s);
    FundedOnCents(Orders(intents, mode, s), a, policy);
    SentAsFunded(Fund(Orders(intents, mode, s), a, policy).fundable);
    PlannedWellPriced(Targets(intents, mode, s), s);
    CashNeverBelowReserve(Orders(intents, mode, s), a, policy, i);
  }
}
