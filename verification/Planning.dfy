/** From intents to share targets, from targets to orders, and what the orders do to the book. */
module Planning {
  import opened Wrappers
  import opened Sizing
  import opened Ordering

  type Symbol = string
  type Book = map<Symbol, real>

  const MODE_TARGET := "target"
  const MODE_INCREMENTAL := "incremental"

  datatype Kind = Weight | Notional | Shares
  datatype Intent = Intent(symbol: Symbol, kind: Kind, value: real)

  datatype Side = Buy | Sell
  datatype Order = Order(symbol: Symbol, side: Side, quantity: real, targetShares: real, currentShares: real,
                         tradeDollars: real, price: real, opensShort: bool)

  // What the market and the account look like to one planning run.
  datatype Setting = Setting(prices: Book, positions: Book, equity: real, fractional: bool,
                             minTradeDollars: real, rebalanceThreshold: real)

  function At(book: Book, symbol: Symbol, default: real): real {
    if symbol in book then book[symbol] else default
  }

  // What an intent asks for, before rounding.
  function RawShares(intent: Intent, price: real, equity: real): real
    requires intent.kind.Shares? || price > 0.0
  {
    match intent.kind
    case Shares => intent.value
    case Weight => equity * intent.value / price
    case Notional => intent.value / price
  }

  // The whole shares (or hundredths) an intent comes to, or nothing where it cannot be priced.
  function Sized(intent: Intent, s: Setting): Option<real> {
    var price := At(s.prices, intent.symbol, 0.0);
    if !intent.kind.Shares? && price <= 0.0 then None
    else
      var raw := RawShares(intent, price, s.equity);
      Some(RoundShares(raw, s.fractional && raw >= 0.0))
  }

  function Targeted(intent: Intent, shares: real, mode: string, s: Setting): real {
    if mode == MODE_INCREMENTAL then At(s.positions, intent.symbol, 0.0) + shares else shares
  }

  function Targets(intents: seq<Intent>, mode: string, s: Setting): Book {
    if intents == [] then
      if mode == MODE_TARGET then map x | x in s.positions :: 0.0 else map[]
    else
      var last := intents[|intents| - 1];
      var so_far := Targets(intents[..|intents| - 1], mode, s);
      match Sized(last, s)
      case None => so_far
      case Some(shares) => so_far[last.symbol := Targeted(last, shares, mode, s)]
  }

  method ResolveTargetShares(intents: seq<Intent>, mode: string, s: Setting) returns (r: Result<Book, string>)
    ensures r == if mode in [MODE_TARGET, MODE_INCREMENTAL] then Ok(Targets(intents, mode, s))
            else Err("Unknown intent mode")
  {
    if mode !in [MODE_TARGET, MODE_INCREMENTAL] {
      return Err("Unknown intent mode");
    }
    var targets: Book := if mode == MODE_TARGET then map x | x in s.positions :: 0.0 else map[];
    for i := 0 to |intents|
      invariant targets == Targets(intents[..i], mode, s)
    {
      assert intents[..i + 1][..i] == intents[..i];
      var shares := Sized(intents[i], s);
      if shares.Some? {
        targets := targets[intents[i].symbol := Targeted(intents[i], shares.value, mode, s)];
      }
    }
    assert intents[..|intents|] == intents;
    r := Ok(targets);
  }

  // The last intent that names a symbol and can be sized decides it.
  function Deciding(intents: seq<Intent>, symbol: Symbol, s: Setting): Option<Intent> {
    if intents == [] then None
    else
      var last := intents[|intents| - 1];
      if last.symbol == symbol && Sized(last, s).Some? then Some(last)
      else Deciding(intents[..|intents| - 1], symbol, s)
  }

  /** Each symbol's target comes from the last intent that decides it; without one, a held symbol is
      targeted at zero when the list is the whole portfolio and left out when it is a change. */
  lemma {:induction false} TargetDecidedByLastIntent(intents: seq<Intent>, mode: string, s: Setting, symbol: Symbol)
    requires mode in [MODE_TARGET, MODE_INCREMENTAL]
    ensures var targets, decider := Targets(intents, mode, s), Deciding(intents, symbol, s);
            match decider
            case Some(i) =>
              && i in intents && i.symbol == symbol && Sized(i, s).Some?
              && symbol in targets && targets[symbol] == Targeted(i, Sized(i, s).value, mode, s)
            case None =>
              && (symbol in targets <==> mode == MODE_TARGET && symbol in s.positions)
              && (symbol in targets ==> targets[symbol] == 0.0)
  {
    if intents != [] {
      TargetDecidedByLastIntent(intents[..|intents| - 1], mode, s, symbol);
    }
  }

  // A target in shares for an amount asked for, at a price: toward zero from it, by less than a unit.
  ghost predicate ComesTo(shares: real, asked: real, price: real, unit: real) {
    if asked >= 0.0 then
      shares >= 0.0 && Times(shares, price) <= asked < Times(shares + unit, price)
    else
      shares <= 0.0 && Times(shares - 1.0, price) < asked <= Times(shares, price)
  }

  // What a weight of the equity, an amount of money or a number of shares comes to, in one symbol's shares.
  ghost predicate AsAsked(shares: real, intent: Intent, s: Setting) {
    var unit := if s.fractional then 0.01 else 1.0;
    match intent.kind
    case Weight => Priced(s, intent.symbol) && ComesTo(shares, s.equity * intent.value, s.prices[intent.symbol], unit)
    case Notional => Priced(s, intent.symbol) && ComesTo(shares, intent.value, s.prices[intent.symbol], unit)
    case Shares => ComesTo(shares, intent.value, 1.0, unit)
  }

  lemma RoundedComesTo(raw: real, asked: real, price: real, fractional: bool)
    requires price > 0.0 && Times(raw, price) == asked
    ensures ComesTo(RoundShares(raw, fractional && raw >= 0.0), asked, price, if fractional then 0.01 else 1.0)
  {
    var shares, unit := RoundShares(raw, fractional && raw >= 0.0), if fractional then 0.01 else 1.0;
    RoundSharesTowardZero(raw, fractional && raw >= 0.0);
    TimesKeepsOrder(0.0, raw, price);
    TimesKeepsOrder(shares, raw, price);
    TimesKeepsOrder(raw, shares, price);
    TimesKeepsOrder(shares + unit, raw, price);
    TimesKeepsOrder(raw, shares - 1.0, price);
    assert Times(0.0, price) == 0.0;
  }

  lemma RawComesTo(intent: Intent, price: real, equity: real)
    requires intent.kind.Shares? || price > 0.0
    ensures var raw := RawShares(intent, price, equity);
            match intent.kind
            case Weight => Times(raw, price) == equity * intent.value
            case Notional => Times(raw, price) == intent.value
            case Shares => Times(raw, 1.0) == intent.value
  {
    match intent.kind
    case Weight => TimesQuotient(equity * intent.value, price);
    case Notional => TimesQuotient(intent.value, price);
    case Shares =>
  }

  lemma SizedAsAsked(intent: Intent, s: Setting)
    ensures Sized(intent, s).Some? <==> intent.kind.Shares? || Priced(s, intent.symbol)
    ensures Sized(intent, s).Some? ==> AsAsked(Sized(intent, s).value, intent, s)
  {
    var price := At(s.prices, intent.symbol, 0.0);
    if intent.kind.Shares? || price > 0.0 {
      RawComesTo(intent, price, s.equity);
      var asked := if intent.kind.Weight? then s.equity * intent.value else intent.value;
      var each := if intent.kind.Shares? then 1.0 else price;
      RoundedComesTo(RawShares(intent, price, s.equity), asked, each, s.fractional);
    }
  }

  lemma {:induction false} DecidedBy(before: seq<Intent>, intent: Intent, after: seq<Intent>, s: Setting)
    requires Sized(intent, s).Some?
    requires forall i :: i in after && i.symbol == intent.symbol ==> Sized(i, s).None?
    ensures Deciding(before + [intent] + after, intent.symbol, s) == Some(intent)
  {
    var all := before + [intent] + after;
    if after == [] {
      assert all == before + [intent];
    } else {
      assert after[|after| - 1] in after;
      assert all[..|all| - 1] == before + [intent] + after[..|after| - 1];
      DecidedBy(before, intent, after[..|after| - 1], s);
    }
  }

  /** Where no later intent for its symbol can be priced, an intent sets the symbol's target to what it asks for, or
      moves it by that much in a list of changes: a share of the equity, an amount of money, or shares, rounded
      toward zero by less than a unit; sales and short positions in whole shares. */
  lemma TargetIsAsAsked(before: seq<Intent>, intent: Intent, after: seq<Intent>, mode: string, s: Setting)
    requires mode in [MODE_TARGET, MODE_INCREMENTAL]
    requires intent.kind.Shares? || Priced(s, intent.symbol)
    requires forall i :: i in after && i.symbol == intent.symbol ==> !i.kind.Shares? && !Priced(s, i.symbol)
    ensures var targets := Targets(before + [intent] + after, mode, s);
            var from := if mode == MODE_TARGET then 0.0 else At(s.positions, intent.symbol, 0.0);
            intent.symbol in targets && AsAsked(targets[intent.symbol] - from, intent, s)
  {
    SizedAsAsked(intent, s);
    forall i | i in after && i.symbol == intent.symbol ensures Sized(i, s).None? {
      SizedAsAsked(i, s);
    }
    DecidedBy(before, intent, after, s);
    TargetDecidedByLastIntent(before + [intent] + after, mode, s, intent.symbol);
  }

  function MinRebalanceDollars(s: Setting): real {
    Max(s.minTradeDollars, s.equity * Max(s.rebalanceThreshold, 0.0))
  }

  /** The floor of a rebalance is the larger of the least trade and, unless negative, the share of the equity. */
  lemma FloorExactly(s: Setting)
    ensures var share := if s.rebalanceThreshold > 0.0 then s.rebalanceThreshold else 0.0;
            var floor := MinRebalanceDollars(s);
            floor >= s.minTradeDollars && floor >= s.equity * share && floor in {s.minTradeDollars, s.equity * share}
  {
  }

  // How far a symbol has to move, in the quantity an order may carry.
  function Move(current: real, target: real, fractional: bool): real {
    if fractional && target >= 0.0 then RoundCents(target - current) else target - current
  }

  predicate Closing(current: real, target: real) {
    Abs(target) <= SHARE_EPSILON && Abs(current) > SHARE_EPSILON
  }

  predicate Priced(s: Setting, symbol: Symbol) { symbol in s.prices && s.prices[symbol] > 0.0 }

  // The order that moves a priced symbol to a target, where that is worth one.
  function OrderTo(symbol: Symbol, current: real, target: real, price: real, s: Setting): Option<Order> {
    var move := Move(current, target, s.fractional);
    var dollars := Abs(move) * price;
    var atLeast := if Closing(current, target) then 0.0 else MinRebalanceDollars(s);
    if Abs(move) <= SHARE_EPSILON || dollars < atLeast then None
    else
      var side := if move > 0.0 then Buy else Sell;
      Some(Order(symbol, side, Abs(move), target, current, dollars, price, side == Sell && target < 0.0))
  }

  // The order one symbol needs, if it needs one.
  function Leg(symbol: Symbol, targets: Book, s: Setting): Option<Order> {
    if !Priced(s, symbol) then None
    else
      var current := At(s.positions, symbol, 0.0);
      OrderTo(symbol, current, At(targets, symbol, current), s.prices[symbol], s)
  }

  function Legs(symbols: seq<Symbol>, targets: Book, s: Setting): seq<Order> {
    if symbols == [] then []
    else
      var rest := Legs(symbols[..|symbols| - 1], targets, s);
      match Leg(symbols[|symbols| - 1], targets, s)
      case None => rest
      case Some(order) => rest + [order]
  }

  function Only(orders: seq<Order>, side: Side): seq<Order> {
    if orders == [] then []
    else
      var rest := Only(orders[..|orders| - 1], side);
      if orders[|orders| - 1].side == side then rest + [orders[|orders| - 1]] else rest
  }

  // The sells in their order, then the buys in theirs.
  function Planned(targets: Book, s: Setting): seq<Order> {
    var legs := Legs(Sorted(targets.Keys + s.positions.Keys), targets, s);
    Only(legs, Sell) + Only(legs, Buy)
  }

  method GatherLegs(symbols: seq<Symbol>, targets: Book, s: Setting) returns (legs: seq<Order>)
    ensures legs == Legs(symbols, targets, s)
  {
    legs := [];
    for i := 0 to |symbols|
      invariant legs == Legs(symbols[..i], targets, s)
    {
      assert symbols[..i + 1][..i] == symbols[..i];
      var leg := Leg(symbols[i], targets, s);
      if leg.Some? {
        legs := legs + [leg.value];
      }
    }
    assert symbols[..|symbols|] == symbols;
  }

  method PlanShareOrders(targets: Book, s: Setting) returns (orders: seq<Order>)
    ensures orders == Planned(targets, s)
  {
    var legs := GatherLegs(Sorted(targets.Keys + s.positions.Keys), targets, s);
    orders := SortBy(legs, SellBefore);
    SortedSellsFirst(legs);
  }

  predicate SellBefore(a: Order, b: Order) { a.side.Sell? || b.side.Buy? }

  lemma FirstIsOne(orders: seq<Order>, side: Side)
    requires forall o :: o in orders ==> o.side == side
    ensures orders != [] ==> orders[0].side == side
  {
  }

  lemma InsertSell(x: Order, sells: seq<Order>, buys: seq<Order>)
    requires x.side.Sell? && (forall o :: o in sells ==> o.side.Sell?) && (buys != [] ==> buys[0].side.Buy?)
    ensures Insert(x, sells + buys, SellBefore) == sells + [x] + buys
  {
    InsertPast(x, sells, buys, SellBefore);
    assert Insert(x, buys, SellBefore) == [x] + buys;
  }

  lemma InsertBuy(x: Order, orders: seq<Order>)
    requires x.side.Buy?
    ensures Insert(x, orders, SellBefore) == orders + [x]
  {
    InsertPast(x, orders, [], SellBefore);
    assert orders + [] == orders;
  }

  lemma {:induction false} OnlyThatSide(orders: seq<Order>, side: Side)
    ensures forall o :: o in Only(orders, side) ==> o.side == side
  {
    if orders != [] {
      OnlyThatSide(orders[..|orders| - 1], side);
    }
  }

  lemma OneMore(legs: seq<Order>)
    requires legs != []
    requires var init := legs[..|legs| - 1];
             SortBy(init, SellBefore) == Only(init, Sell) + Only(init, Buy)
    ensures SortBy(legs, SellBefore) == Only(legs, Sell) + Only(legs, Buy)
  {
    var init, last := legs[..|legs| - 1], legs[|legs| - 1];
    var sells, buys := Only(init, Sell), Only(init, Buy);
    OnlyThatSide(init, Sell);
    OnlyThatSide(init, Buy);
    if last.side.Sell? {
      FirstIsOne(buys, Buy);
      InsertSell(last, sells, buys);
    } else {
      InsertBuy(last, sells + buys);
      assert (sells + buys) + [last] == sells + (buys + [last]);
    }
  }

  /** The stable sort that puts sells first leaves the sells in their order, and then the buys in theirs. */
  lemma {:induction false} SortedSellsFirst(legs: seq<Order>)
    ensures SortBy(legs, SellBefore) == Only(legs, Sell) + Only(legs, Buy)
  {
    if legs != [] {
      SortedSellsFirst(legs[..|legs| - 1]);
      OneMore(legs);
    }
  }

  // Where a list of orders keeps symbols apart, each symbol has at most one of them.
  ghost predicate OnePerSymbol(orders: seq<Order>) {
    forall i, j :: 0 <= i < j < |orders| ==> orders[i].symbol != orders[j].symbol
  }

  lemma {:induction false} LegsOfSymbols(symbols: seq<Symbol>, targets: Book, s: Setting)
    requires forall i, j :: 0 <= i < j < |symbols| ==> symbols[i] != symbols[j]
    ensures var legs := Legs(symbols, targets, s);
            && OnePerSymbol(legs)
            && forall o :: o in legs <==> o.symbol in symbols && Leg(o.symbol, targets, s) == Some(o)
  {
    if symbols != [] {
      var init, last := symbols[..|symbols| - 1], symbols[|symbols| - 1];
      LegsOfSymbols(init, targets, s);
      assert symbols == init + [last] && last !in init;
      forall i | 0 <= i < |Legs(init, targets, s)| ensures Legs(init, targets, s)[i].symbol != last {
        assert Legs(init, targets, s)[i] in Legs(init, targets, s);
      }
    }
  }

  lemma {:induction false} OnlyKeepsSide(orders: seq<Order>, side: Side)
    ensures forall o :: o in Only(orders, side) <==> o in orders && o.side == side
    ensures OnePerSymbol(orders) ==> OnePerSymbol(Only(orders, side))
  {
    if orders != [] {
      var init, last := orders[..|orders| - 1], orders[|orders| - 1];
      OnlyKeepsSide(init, side);
      assert orders == init + [last];
      forall i | 0 <= i < |Only(init, side)| && OnePerSymbol(orders)
        ensures Only(init, side)[i].symbol != last.symbol
      {
        assert Only(init, side)[i] in init;
      }
    }
  }

  lemma LegOnlyForKnownSymbols(symbol: Symbol, targets: Book, s: Setting)
    requires symbol !in targets && symbol !in s.positions
    ensures Leg(symbol, targets, s).None?
  {
    if Priced(s, symbol) {
      assert Move(0.0, 0.0, s.fractional) == 0.0;
    }
  }

  /** The planned list holds, once each, exactly the legs the symbols need, and every sell comes before
      every buy. */
  lemma PlannedIsTheLegs(targets: Book, s: Setting)
    ensures var orders := Planned(targets, s);
            && OnePerSymbol(orders)
            && (forall o :: o in orders <==> Leg(o.symbol, targets, s) == Some(o))
            && (forall i, j :: 0 <= i < j < |orders| && orders[j].side.Sell? ==> orders[i].side.Sell?)
  {
    var legs := Legs(Sorted(targets.Keys + s.positions.Keys), targets, s);
    LegsOfSymbols(Sorted(targets.Keys + s.positions.Keys), targets, s);
    OnlyKeepsSide(legs, Sell);
    OnlyKeepsSide(legs, Buy);
    var sells, buys := Only(legs, Sell), Only(legs, Buy);
    forall o: Order | Leg(o.symbol, targets, s) == Some(o) ensures o in sells + buys {
      if o.symbol !in targets && o.symbol !in s.positions {
        LegOnlyForKnownSymbols(o.symbol, targets, s);
      }
    }
    forall i, j | 0 <= i < |sells| && 0 <= j < |buys|
      ensures sells[i].symbol != buys[j].symbol && sells[i] in legs && buys[j] in legs {
      var sell, buy := sells[i], buys[j];
      assert sell in sells && buy in buys && sell.side != buy.side;
      assert Leg(sell.symbol, targets, s) == Some(sell) && Leg(buy.symbol, targets, s) == Some(buy);
    }
    forall i | 0 <= i < |sells| ensures sells[i].side.Sell? { assert sells[i] in sells; }
    forall i | 0 <= i < |buys| ensures buys[i].side.Buy? { assert buys[i] in buys; }
  }

  function Signed(o: Order): real { if o.side.Buy? then o.quantity else -o.quantity }

  // The net change a list of orders makes to one symbol.
  function Net(orders: seq<Order>, symbol: Symbol): real {
    if orders == [] then 0.0
    else Net(orders[..|orders| - 1], symbol)
         + if orders[|orders| - 1].symbol == symbol then Signed(orders[|orders| - 1]) else 0.0
  }

  predicate Kept(shares: real) { Abs(shares) > SHARE_EPSILON }

  // Long or short, but for dust.
  ghost predicate WorthKeeping(shares: real) { shares > 0.000000001 || shares < -0.000000001 }

  // The book after a list of orders: each symbol's net change applied, and dust dropped.
  ghost predicate IsResulting(resulting: Book, positions: Book, submitted: seq<Order>) {
    && (forall x :: x in resulting <==> (x in positions || exists i :: 0 <= i < |submitted| && submitted[i].symbol == x)
                                        && WorthKeeping(At(positions, x, 0.0) + Net(submitted, x)))
    && forall x :: x in resulting ==> resulting[x] == At(positions, x, 0.0) + Net(submitted, x)
  }

  method ResultingPositions(positions: Book, submitted: seq<Order>) returns (resulting: Book)
    ensures IsResulting(resulting, positions, submitted)
  {
    var book := positions;
    for i := 0 to |submitted|
      invariant forall x :: x in book <==> x in positions || exists j :: 0 <= j < i && submitted[j].symbol == x
      invariant forall x :: At(book, x, 0.0) == At(positions, x, 0.0) + Net(submitted[..i], x)
    {
      assert submitted[..i + 1][..i] == submitted[..i];
      var order := submitted[i];
      book := book[order.symbol := At(book, order.symbol, 0.0) + Signed(order)];
    }
    assert submitted[..|submitted|] == submitted;
    resulting := map x | x in book && Kept(book[x]) :: book[x];
    forall x | x in book ensures book[x] == At(positions, x, 0.0) + Net(submitted, x) {
      assert At(book, x, 0.0) == book[x];
    }
  }

  lemma {:induction false} NetOfNone(orders: seq<Order>, symbol: Symbol)
    requires forall o :: o in orders ==> o.symbol != symbol
    ensures Net(orders, symbol) == 0.0
  {
    if orders != [] {
      NetOfNone(orders[..|orders| - 1], symbol);
    }
  }

  lemma {:induction false} NetOfOnePerSymbol(orders: seq<Order>, order: Order)
    requires OnePerSymbol(orders) && order in orders
    ensures Net(orders, order.symbol) == Signed(order)
  {
    var init, last := orders[..|orders| - 1], orders[|orders| - 1];
    assert forall o :: o in init ==> o.symbol != last.symbol;
    if order == last {
      NetOfNone(init, last.symbol);
    } else {
      assert order in init;
      NetOfOnePerSymbol(init, order);
    }
  }

  lemma LegNamesItsSymbol(symbol: Symbol, targets: Book, s: Setting)
    ensures Leg(symbol, targets, s).Some? ==> Leg(symbol, targets, s).value.symbol == symbol
  {
  }

  // The change a symbol's order makes to it.
  function Change(leg: Option<Order>): real { if leg.Some? then Signed(leg.value) else 0.0 }

  lemma NetIsTheLeg(targets: Book, s: Setting, symbol: Symbol)
    ensures Net(Planned(targets, s), symbol) == Change(Leg(symbol, targets, s))
  {
    PlannedIsTheLegs(targets, s);
    var orders := Planned(targets, s);
    LegNamesItsSymbol(symbol, targets, s);
    match Leg(symbol, targets, s)
    case Some(order) => NetOfOnePerSymbol(orders, order);
    case None => NetOfNone(orders, symbol);
  }

  // The distance to a target is one a plan can carry.
  predicate Carried(current: real, target: real, fractional: bool) {
    !(fractional && target >= 0.0) || OnGrid(target - current, true)
  }

  lemma MoveExactOnGrid(current: real, target: real, fractional: bool)
    ensures current + Move(current, target, fractional) == target
            <==> Carried(current, target, fractional)
  {
    RoundCentsFixes(target - current);
  }

  // Why a symbol may be left where it is: it has no price, or it is not worth moving and not being closed.
  ghost predicate MayStay(symbol: Symbol, current: real, target: real, s: Setting) {
    Priced(s, symbol) ==>
      var move := Abs(Move(current, target, s.fractional));
      || move <= 0.000000001
      || (move * s.prices[symbol] < MinRebalanceDollars(s) && !ClosesOut(current, target))
  }

  // Nothing worth keeping is aimed at, and there is something to close.
  ghost predicate ClosesOut(current: real, target: real) {
    -0.000000001 <= target <= 0.000000001 && !(-0.000000001 <= current <= 0.000000001)
  }

  lemma NoProductBelowZero(move: real, price: real)
    requires move >= 0.0 && price > 0.0
    ensures move * price >= 0.0
  {
  }

  /** A symbol gets no order exactly where it may stay; and an order reaches its target exactly when it can carry the
      distance. */
  lemma LegReachesTarget(symbol: Symbol, targets: Book, s: Setting)
    ensures var current := At(s.positions, symbol, 0.0);
            var target := At(targets, symbol, current);
            var leg := Leg(symbol, targets, s);
            && (leg.None? <==> MayStay(symbol, current, target, s))
            && (leg.Some? ==> (current + Change(leg) == target <==> Carried(current, target, s.fractional)))
  {
    var current := At(s.positions, symbol, 0.0);
    var target := At(targets, symbol, current);
    MoveExactOnGrid(current, target, s.fractional);
    if Priced(s, symbol) { NoProductBelowZero(Abs(Move(current, target, s.fractional)), s.prices[symbol]); }
  }

  // How far past its target a sale goes when its quantity is rounded to cents.
  function Past(current: real, target: real): real { RoundCents(current - target) - (current - target) }

  // A sale that aims at no short position and, rounded to cents, ends in one.
  predicate SlipsShort(current: real, target: real) { target < current && 0.0 <= target < Past(current, target) }

  // A sale that aims at a short position and, rounded to cents, ends in none.
  predicate MissesShort(current: real, target: real) { target < current && Past(current, target) <= target < 0.0 }

  lemma MoveOrPast(current: real, target: real, fractional: bool)
    ensures var move := Move(current, target, fractional);
            if fractional && target >= 0.0 then
              current + move == target - Past(current, target) && (move < 0.0 ==> target < current)
            else current + move == target
  {
    assert target - current == -(current - target);
    RoundCentsOdd(current - target);
    RoundCentsOdd(target - current);
  }

  /** As planned, an order is marked as opening a short, and so as bringing no cash, if and only if it is a sale
      that leaves the position below zero; except where the account trades fractions and the sale slips short. */
  lemma ShortExactlyWhenBelowZero(symbol: Symbol, targets: Book, s: Setting)
    requires Leg(symbol, targets, s).Some?
    ensures var current := At(s.positions, symbol, 0.0);
            var target, order := At(targets, symbol, current), Leg(symbol, targets, s).value;
            (order.opensShort <==> order.side.Sell? && current + Signed(order) < 0.0)
            <==> !(s.fractional && SlipsShort(current, target))
  {
    var current := At(s.positions, symbol, 0.0);
    var target := At(targets, symbol, current);
    MoveOrPast(current, target, s.fractional);
    if SlipsShort(current, target) { SlipsBySelling(current, target); }
  }

  lemma SlipsBySelling(current: real, target: real)
    requires SlipsShort(current, target)
    ensures RoundCents(target - current) < 0.0
  {
    assert target - current == -(current - target);
    RoundCentsOdd(current - target);
  }

  /** A long position closed altogether slips short exactly when it rounds up. */
  lemma ClosingSlipsExactly(current: real)
    requires current > 0.0
    ensures SlipsShort(current, 0.0) <==> RoundsUp(current)
  {
    RoundCentsUp(current);
    assert current - 0.0 == current;
  }

  /** So closing 0.006 shares on a fractional account sells 0.01, unmarked. */
  lemma ClosingOffTheGridOversells(s: Setting, targets: Book)
    requires s.positions == map["X" := 0.006] && s.prices == map["X" := 100.0] && s.fractional
             && targets == map["X" := 0.0]
    ensures SlipsShort(0.006, 0.0)
    ensures Leg("X", targets, s) == Some(Order("X", Sell, 0.01, 0.0, 0.006, 1.0, 100.0, false))
  {
    assert (0.0 - 0.006) * 100.0 == -0.6;
    assert RoundHalfEven(0.6) == 1;
    assert RoundHalfEven(-0.6) == -1;
    assert Move(0.006, 0.0, true) == -0.01;
  }

  /** Applying the planned orders moves every symbol that got one onto its target, exactly when the
      distance is one an order can carry; every other symbol stays where it was, for a stated reason. */
  lemma PlannedOrdersReachTargets(targets: Book, s: Setting, symbol: Symbol)
    ensures var current := At(s.positions, symbol, 0.0);
            var target := At(targets, symbol, current);
            var after := current + Net(Planned(targets, s), symbol);
            if exists o :: o in Planned(targets, s) && o.symbol == symbol then
              !MayStay(symbol, current, target, s) && (after == target <==> Carried(current, target, s.fractional))
            else
              after == current && MayStay(symbol, current, target, s)
  {
    PlannedIsTheLegs(targets, s);
    NetIsTheLeg(targets, s, symbol);
    LegReachesTarget(symbol, targets, s);
    LegNamesItsSymbol(symbol, targets, s);
    var leg := Leg(symbol, targets, s);
    assert leg.Some? ==> leg.value in Planned(targets, s);
  }
}
