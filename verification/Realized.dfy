/** Realized profit from a broker's own fills, by average cost. */
module Realized {
  import opened Sizing
  import opened Ordering

  type Symbol = string

  // Quantities are absolute; a missing multiplier reads as one, and dates are ISO text.
  datatype Fill = Fill(symbol: Symbol, buy: bool, quantity: real, price: real, multiplier: real, date: string)
  datatype Lot = Lot(shares: real, average: real)
  datatype Ledger = Ledger(lots: map<Symbol, Lot>, realized: real, closes: nat, unmatched: nat)

  const EMPTY := Ledger(map[], 0.0, 0, 0)


  predicate ByDate(a: Fill, b: Fill) { Before(a.date, b.date) }
  function Chronological(fills: seq<Fill>): seq<Fill> { SortBy(fills, ByDate) }

  lemma DatesAreOrdered()
    ensures TotalPreorder(ByDate)
  {
    forall a, b ensures ByDate(a, b) || ByDate(b, a) { BeforeTotal(a.date, b.date); }
    forall a, b, c | ByDate(a, b) && ByDate(b, c) ensures ByDate(a, c) { BeforeTransitive(a.date, b.date, c.date); }
  }

  /** The walk sees every fill once, oldest first. */
  lemma ChronologicalSorts(fills: seq<Fill>)
    ensures multiset(Chronological(fills)) == multiset(fills) && InOrder(Chronological(fills), ByDate)
  {
    DatesAreOrdered();
    SortBySorts(fills, ByDate);
  }

  /** The order a feed hands its fills back in makes no difference where no two of them share a date. */
  lemma FeedOrderDoesNotMatter(fills: seq<Fill>, feed: seq<Fill>)
    requires multiset(feed) == multiset(fills)
    requires forall f, g :: f in fills && g in fills && f.date == g.date ==> f == g
    ensures Chronological(feed) == Chronological(fills)
  {
    var a, b := Chronological(fills), Chronological(feed);
    ChronologicalSorts(fills);
    ChronologicalSorts(feed);
    forall f, g | f in a && g in a && ByDate(f, g) && ByDate(g, f) ensures f == g {
      assert f in multiset(a) && g in multiset(a);
      BeforeTotal(f.date, g.date);
    }
    InOrderIsUnique(a, b, ByDate);
  }

  predicate Valid(f: Fill) { f.symbol != "" && f.quantity > 0.0 && f.price > 0.0 }

  function DateOnly(date: string): string { if |date| <= 10 then date else date[..10] }
  predicate Counts(f: Fill, since: string) { since == "" || Before(since, DateOnly(f.date)) }

  function LotOf(lots: map<Symbol, Lot>, x: Symbol): Lot { if x in lots then lots[x] else Lot(0.0, 0.0) }

  // The average cost once more is bought.
  function Averaged(lot: Lot, f: Fill): real {
    var total := lot.shares + f.quantity;
    if total != 0.0 then (Times(lot.shares, lot.average) + Times(f.quantity, f.price)) / total else 0.0
  }

  function Closed(lot: Lot, f: Fill): real { if f.buy || lot.shares <= 0.0 then 0.0 else Min(f.quantity, lot.shares) }

  function Gain(lot: Lot, f: Fill): real { Times(Times(f.price - lot.average, Closed(lot, f)), f.multiplier) }

  function LotAfter(lot: Lot, f: Fill): Lot {
    if f.buy then Lot(lot.shares + f.quantity, Averaged(lot, f))
    else if lot.shares <= 0.0 then lot
    else Lot(lot.shares - Closed(lot, f), lot.average)
  }

  function LotsAfter(lots: map<Symbol, Lot>, f: Fill): map<Symbol, Lot> {
    var lot := LotOf(lots, f.symbol);
    if !Valid(f) || (!f.buy && lot.shares <= 0.0) then lots else lots[f.symbol := LotAfter(lot, f)]
  }

  function Booked(l: Ledger, f: Fill, since: string): Ledger {
    var lot := LotOf(l.lots, f.symbol);
    if !Valid(f) then l
    else if f.buy then l.(lots := LotsAfter(l.lots, f))
    else if lot.shares <= 0.0 then l.(unmatched := l.unmatched + if Counts(f, since) then 1 else 0)
    else if !Counts(f, since) then l.(lots := LotsAfter(l.lots, f))
    else Ledger(LotsAfter(l.lots, f), l.realized + Gain(lot, f), l.closes + 1,
      l.unmatched + if f.quantity > lot.shares then 1 else 0)
  }

  function Walk(fills: seq<Fill>, since: string): Ledger {
    if fills == [] then EMPTY else Booked(Walk(fills[..|fills| - 1], since), fills[|fills| - 1], since)
  }

  // Fills of before a date, by the first ten characters of theirs.
  function OfBefore(since: string): Fill -> bool {
    (f: Fill) => var date := if |f.date| <= 10 then f.date else f.date[..10]; date != since && Before(date, since)
  }

  lemma BeforeOrCounted(f: Fill, since: string)
    requires since != ""
    ensures OfBefore(since)(f) <==> !Counts(f, since)
  {
    BeforeTotal(since, DateOnly(f.date));
  }

  lemma EarlierIsBefore(f: Fill, g: Fill, since: string)
    requires since != "" && ByDate(f, g) && OfBefore(since)(g)
    ensures OfBefore(since)(f)
  {
    BeforeOfPrefixes(f.date, g.date, 10);
    BeforeTransitive(DateOnly(f.date), DateOnly(g.date), since);
    BeforeTotal(DateOnly(g.date), since);
  }

  // What a walk counts.
  ghost predicate CountsNothing(l: Ledger) { l.realized == 0.0 && l.closes == 0 && l.unmatched == 0 }

  lemma {:induction false} NothingBeforeCounts(fills: seq<Fill>, since: string)
    requires since != "" && forall f :: f in fills ==> OfBefore(since)(f)
    ensures CountsNothing(Walk(fills, since))
  {
    if fills != [] {
      var init, f := fills[..|fills| - 1], fills[|fills| - 1];
      assert f in fills && forall g :: g in init ==> g in fills;
      NothingBeforeCounts(init, since);
      BeforeOrCounted(f, since);
    }
  }

  // What is counted in all is what one walk counts and what the other does.
  ghost predicate AddUp(all: Ledger, one: Ledger, other: Ledger) {
    && all.realized == one.realized + other.realized
    && all.closes == one.closes + other.closes && all.unmatched == one.unmatched + other.unmatched
  }

  // A fill that counts adds the same to both walks.
  lemma CountedAlike(one: Ledger, all: Ledger, f: Fill, since: string)
    requires one.lots == all.lots && Counts(f, since)
    ensures var one', all' := Booked(one, f, since), Booked(all, f, "");
            && all'.realized - one'.realized == all.realized - one.realized
            && all'.closes - one'.closes == all.closes - one.closes
            && all'.unmatched - one'.unmatched == all.unmatched - one.unmatched
  {
  }

  lemma {:induction false} SplitsInOrder(fills: seq<Fill>, since: string)
    requires since != "" && InOrder(fills, ByDate)
    ensures AddUp(Walk(fills, ""), Walk(fills, since), Walk(Where(fills, OfBefore(since)), ""))
  {
    if fills != [] {
      var init, f := fills[..|fills| - 1], fills[|fills| - 1];
      BeforeOrCounted(f, since);
      if OfBefore(since)(f) {
        AllAreBefore(fills, since);
        WhereAll(fills, OfBefore(since));
        NothingBeforeCounts(fills, since);
      } else {
        SplitsInOrder(init, since);
        assert fills == init + [f];
        WhereOneMore(init, f, OfBefore(since));
        SinceOnlyChoosesWhatCounts(init, since);
        SinceOnlyChoosesWhatCounts(init, "");
        CountedAlike(Walk(init, since), Walk(init, ""), f, since);
      }
    }
  }

  lemma AllAreBefore(fills: seq<Fill>, since: string)
    requires since != "" && fills != [] && InOrder(fills, ByDate) && OfBefore(since)(fills[|fills| - 1])
    ensures forall f :: f in fills ==> OfBefore(since)(f)
  {
    forall f | f in fills ensures OfBefore(since)(f) {
      var i :| 0 <= i < |fills| && fills[i] == f;
      if i < |fills| - 1 { EarlierIsBefore(f, fills[|fills| - 1], since); }
    }
  }

  /** A figure from a date on is the figure over all fills, less the figure over just those of before the date. */
  lemma SinceIsTheRest(fills: seq<Fill>, since: string)
    requires since != ""
    ensures AddUp(Walk(Chronological(fills), ""), Walk(Chronological(fills), since),
                  Walk(Chronological(Where(fills, OfBefore(since))), ""))
  {
    DatesAreOrdered();
    ChronologicalSorts(fills);
    SortWhere(fills, ByDate, OfBefore(since));
    SplitsInOrder(Chronological(fills), since);
  }

  // How many of the valid fills are such, against the lot they meet.
  function Number(fills: seq<Fill>, such: (Lot, Fill) -> bool): nat {
    if fills == [] then 0
    else
      var init, f := fills[..|fills| - 1], fills[|fills| - 1];
      Number(init, such) + if Valid(f) && such(LotOf(LotsFrom(init), f.symbol), f) then 1 else 0
  }

  function FindsShares(): (Lot, Fill) -> bool { (lot: Lot, f: Fill) => !f.buy && lot.shares > 0.0 }
  function AsksForMore(): (Lot, Fill) -> bool { (lot: Lot, f: Fill) => !f.buy && f.quantity > lot.shares }

  /** The closes are the sells that find open shares, and the unmatched are the sells that ask for more than are
      open. */
  lemma {:induction false} ClosesAndUnmatched(fills: seq<Fill>)
    ensures Walk(fills, "").closes == Number(fills, FindsShares())
    ensures Walk(fills, "").unmatched == Number(fills, AsksForMore())
  {
    if fills != [] {
      ClosesAndUnmatched(fills[..|fills| - 1]);
      SinceOnlyChoosesWhatCounts(fills[..|fills| - 1], "");
    }
  }

  /** A fill without a symbol, a quantity or a price is passed over. */
  lemma InvalidIsPassedOver(fills: seq<Fill>, f: Fill, since: string)
    requires f.symbol == "" || f.quantity <= 0.0 || f.price <= 0.0
    ensures Walk(fills + [f], since) == Walk(fills, since)
  {
    assert (fills + [f])[..|fills|] == fills;
  }

  /** Any other counts: a buy adds its shares, and a sell takes what it asks for as far as there is. */
  lemma OpenSharesMove(fills: seq<Fill>, f: Fill)
    requires f.symbol != "" && f.quantity > 0.0 && f.price > 0.0
    ensures var before, after := LotOf(LotsFrom(fills), f.symbol).shares, LotOf(LotsFrom(fills + [f]), f.symbol).shares;
            after == if f.buy then before + f.quantity else if f.quantity >= before then 0.0 else before - f.quantity
  {
    assert (fills + [f])[..|fills|] == fills;
    SharesNeverNegative(fills);
  }

  method RealizedFromFills(fills: seq<Fill>, since: string) returns (realized: real, closes: nat, unmatched: nat)
    ensures var ledger := Walk(Chronological(fills), since);
            realized == ledger.realized && closes == ledger.closes && unmatched == ledger.unmatched
    ensures since != "" ==>
              var all := Walk(Chronological(fills), "");
              var earlier := Walk(Chronological(Where(fills, OfBefore(since))), "");
              && realized == all.realized - earlier.realized
              && closes == all.closes - earlier.closes && unmatched == all.unmatched - earlier.unmatched
  {
    var sorted := Chronological(fills);
    var open: map<Symbol, Lot> := map[];
    realized, closes, unmatched := 0.0, 0, 0;
    for i := 0 to |sorted|
      invariant Ledger(open, realized, closes, unmatched) == Walk(sorted[..i], since)
    {
      assert sorted[..i + 1][..i] == sorted[..i];
      var f := sorted[i];
      if !Valid(f) {
        continue;
      }
      var counts := Counts(f, since);
      var lot := LotOf(open, f.symbol);
      if f.buy {
        open := open[f.symbol := LotAfter(lot, f)];
        continue;
      }
      if lot.shares <= 0.0 {
        unmatched := unmatched + if counts then 1 else 0;
        continue;
      }
      if counts {
        realized := realized + Gain(lot, f);
        closes := closes + 1;
        if f.quantity > lot.shares {
          unmatched := unmatched + 1;
        }
      }
      open := open[f.symbol := LotAfter(lot, f)];
    }
    assert sorted[..|sorted|] == sorted;
    if since != "" { SinceIsTheRest(fills, since); }
  }

  // -- The lots --------------------------------------------------------------------------------

  // The position one symbol is left with.
  function LotsFrom(fills: seq<Fill>): map<Symbol, Lot> {
    if fills == [] then map[] else LotsAfter(LotsFrom(fills[..|fills| - 1]), fills[|fills| - 1])
  }

  // What the fills from a date on make, one by one, against the lots all fills before them leave.
  function Counted(fills: seq<Fill>, since: string): real {
    if fills == [] then 0.0
    else
      var init, f := fills[..|fills| - 1], fills[|fills| - 1];
      Counted(init, since) + if Valid(f) && Counts(f, since) then Gain(LotOf(LotsFrom(init), f.symbol), f) else 0.0
  }

  lemma NoGain(lot: Lot, f: Fill)
    requires Closed(lot, f) == 0.0
    ensures Gain(lot, f) == 0.0
  {
  }

  /** `since` chooses which gains are counted and nothing else: the lots are those of all the fills, and
      each counted gain is measured against them. */
  lemma {:induction false} SinceOnlyChoosesWhatCounts(fills: seq<Fill>, since: string)
    ensures Walk(fills, since).lots == LotsFrom(fills) && Walk(fills, since).realized == Counted(fills, since)
  {
    if fills != [] {
      var init, f := fills[..|fills| - 1], fills[|fills| - 1];
      SinceOnlyChoosesWhatCounts(init, since);
      var lot := LotOf(LotsFrom(init), f.symbol);
      if Closed(lot, f) == 0.0 { NoGain(lot, f); }
      if f.quantity > 0.0 && lot.shares > 0.0 && !f.buy { assert Closed(lot, f) > 0.0; }
    }
  }

  ghost predicate NotNegative(lots: map<Symbol, Lot>) { forall x :: x in lots ==> lots[x].shares >= 0.0 }

  /** Open shares never go negative, and a symbol is open only if it was bought. */
  lemma {:induction false} SharesNeverNegative(fills: seq<Fill>)
    ensures NotNegative(LotsFrom(fills))
    ensures forall x :: x in LotsFrom(fills) ==> exists f :: f in fills && f.symbol == x && f.buy && Valid(f)
  {
    if fills != [] {
      var init, f := fills[..|fills| - 1], fills[|fills| - 1];
      SharesNeverNegative(init);
      assert f in fills && forall g :: g in init ==> g in fills;
      var lot := LotOf(LotsFrom(init), f.symbol);
      assert Valid(f) ==> LotAfter(lot, f).shares >= 0.0;
    }
  }

  // -- Conservation --------------------------------------------------------------------------------

  // One symbol's share of a sum over the valid fills.
  function Sum(fills: seq<Fill>, x: Symbol, part: (Lot, Fill) -> real): real {
    if fills == [] then 0.0
    else
      var init, f := fills[..|fills| - 1], fills[|fills| - 1];
      Sum(init, x, part) + if Valid(f) && f.symbol == x then part(LotOf(LotsFrom(init), x), f) else 0.0
  }

  function Proceeds(): (Lot, Fill) -> real { (lot, f: Fill) => Times(f.price, Closed(lot, f)) }
  function Cost(): (Lot, Fill) -> real { (lot, f: Fill) => if f.buy then Times(f.quantity, f.price) else 0.0 }
  function Bought(): (Lot, Fill) -> real { (lot, f: Fill) => if f.buy then f.quantity else 0.0 }
  function Shed(): (Lot, Fill) -> real { (lot, f) => Closed(lot, f) }
  function Gains(): (Lot, Fill) -> real { (lot, f) => Gain(lot, f) }

  function BasisOf(lot: Lot): real { Times(lot.shares, lot.average) }

  lemma AveragedKeepsBasis(lot: Lot, f: Fill)
    requires lot.shares >= 0.0 && f.quantity > 0.0
    ensures Times(lot.shares + f.quantity, Averaged(lot, f)) == BasisOf(lot) + Times(f.quantity, f.price)
  {
  }

  lemma ShedBasis(shares: real, closed: real, average: real, price: real)
    ensures Times(price - average, closed)
            == Times(price, closed) + Times(shares - closed, average) - Times(shares, average)
  {
  }

  lemma TimesDistributes(m: real, a: real, d: real)
    ensures Times(a + d, m) == Times(a, m) + Times(d, m)
  {
  }

  // One fill: what it gains is what it takes in, less what it costs, plus the change in basis.
  lemma FillConserves(lot: Lot, f: Fill)
    requires Valid(f) && lot.shares >= 0.0
    ensures Gain(lot, f)
            == Times(Proceeds()(lot, f) - Cost()(lot, f) + BasisOf(LotAfter(lot, f)) - BasisOf(lot), f.multiplier)
  {
    if f.buy {
      AveragedKeepsBasis(lot, f);
      assert Closed(lot, f) == 0.0 && Times(f.price, 0.0) == 0.0;
      NoGain(lot, f);
    } else if lot.shares > 0.0 {
      ShedBasis(lot.shares, Closed(lot, f), lot.average, f.price);
    } else {
      NoGain(lot, f);
      assert Times(f.price, 0.0) == 0.0;
    }
  }

  lemma CarriedOn(gains: real, proceeds: real, cost: real, basis: real, gain: real, more: real, spent: real,
                  basis': real, m: real)
    requires gains == Times(proceeds - cost + basis, m) && gain == Times(more - spent + basis' - basis, m)
    ensures gains + gain == Times((proceeds + more) - (cost + spent) + basis', m)
  {
    TimesDistributes(m, proceeds - cost + basis, more - spent + basis' - basis);
  }

  ghost predicate OneMultiplier(fills: seq<Fill>, x: Symbol, m: real) {
    forall f :: f in fills && f.symbol == x ==> f.multiplier == m
  }

  lemma LotOfAfter(lots: map<Symbol, Lot>, f: Fill, x: Symbol)
    ensures LotOf(LotsAfter(lots, f), x) == if Valid(f) && f.symbol == x then LotAfter(LotOf(lots, x), f)
            else LotOf(lots, x)
  {
  }

  /** Cost is conserved, symbol by symbol: what was realized is the matched proceeds, less everything paid
      for the symbol, plus the basis still in the open position, all times the multiplier. */
  lemma {:induction false} CostIsConserved(fills: seq<Fill>, x: Symbol, m: real)
    requires OneMultiplier(fills, x, m)
    ensures Sum(fills, x, Gains())
            == Times(Sum(fills, x, Proceeds()) - Sum(fills, x, Cost()) + BasisOf(LotOf(LotsFrom(fills), x)), m)
  {
    if fills != [] {
      var init, f := fills[..|fills| - 1], fills[|fills| - 1];
      assert f in fills && forall g :: g in init ==> g in fills;
      CostIsConserved(init, x, m);
      var lot := LotOf(LotsFrom(init), x);
      LotOfAfter(LotsFrom(init), f, x);
      if Valid(f) && f.symbol == x {
        SharesNeverNegative(init);
        FillConserves(lot, f);
        CarriedOn(Sum(init, x, Gains()), Sum(init, x, Proceeds()), Sum(init, x, Cost()), BasisOf(lot), Gain(lot, f),
                  Proceeds()(lot, f), Cost()(lot, f), BasisOf(LotAfter(lot, f)), m);
      }
    }
  }

  /** Shares are conserved: what is open is what was bought, less what sells have closed. */
  lemma {:induction false} SharesAreConserved(fills: seq<Fill>, x: Symbol)
    ensures LotOf(LotsFrom(fills), x).shares == Sum(fills, x, Bought()) - Sum(fills, x, Shed())
  {
    if fills != [] {
      SharesAreConserved(fills[..|fills| - 1], x);
      LotOfAfter(LotsFrom(fills[..|fills| - 1]), fills[|fills| - 1], x);
    }
  }

  // A sum over symbols.
  function Over(symbols: seq<Symbol>, f: Symbol -> real): real {
    if symbols == [] then 0.0 else Over(symbols[..|symbols| - 1], f) + f(symbols[|symbols| - 1])
  }

  lemma {:induction false} OverSame(symbols: seq<Symbol>, f: Symbol -> real, g: Symbol -> real)
    requires forall x :: x in symbols ==> f(x) == g(x)
    ensures Over(symbols, f) == Over(symbols, g)
  {
    if symbols != [] {
      assert symbols[|symbols| - 1] in symbols;
      OverSame(symbols[..|symbols| - 1], f, g);
    }
  }

  lemma {:induction false} OverOneMore(symbols: seq<Symbol>, f: Symbol -> real, g: Symbol -> real, x: Symbol, d: real)
    requires (forall i, j :: 0 <= i < j < |symbols| ==> symbols[i] != symbols[j]) && x in symbols
    requires forall y :: y in symbols ==> g(y) == f(y) + if y == x then d else 0.0
    ensures Over(symbols, g) == Over(symbols, f) + d
  {
    var init, last := symbols[..|symbols| - 1], symbols[|symbols| - 1];
    if x == last {
      assert x !in init;
      OverSame(init, f, g);
    } else {
      assert x in init;
      OverOneMore(init, f, g, x, d);
    }
  }

  function GainsOf(fills: seq<Fill>): Symbol -> real { x => Sum(fills, x, Gains()) }

  /** The total is the sum of what each symbol realized. */
  lemma {:induction false} TotalIsTheSumOverSymbols(fills: seq<Fill>, symbols: seq<Symbol>)
    requires forall i, j :: 0 <= i < j < |symbols| ==> symbols[i] != symbols[j]
    requires forall f :: f in fills ==> f.symbol in symbols
    ensures Walk(fills, "").realized == Over(symbols, GainsOf(fills))
  {
    SinceOnlyChoosesWhatCounts(fills, "");
    if fills == [] {
      OverNothing(symbols);
    } else {
      var init, f := fills[..|fills| - 1], fills[|fills| - 1];
      assert f in fills && forall g :: g in init ==> g in fills;
      TotalIsTheSumOverSymbols(init, symbols);
      SinceOnlyChoosesWhatCounts(init, "");
      OverOneMore(symbols, GainsOf(init), GainsOf(fills), f.symbol,
                  if Valid(f) then Gain(LotOf(LotsFrom(init), f.symbol), f) else 0.0);
    }
  }

  lemma {:induction false} OverNothing(symbols: seq<Symbol>)
    ensures Over(symbols, GainsOf([])) == 0.0
  {
    if symbols != [] {
      OverNothing(symbols[..|symbols| - 1]);
    }
  }

  // -- The diagnostic walk ---------------------------------------------------------------------------

  datatype Diagnosis = Diagnosis(lots: map<Symbol, Lot>, realized: real, unmatched: seq<Fill>)

  // The same walk as the report tool prints it: every fill taken as it is, and unmatched ones listed.
  function Diagnosed(d: Diagnosis, f: Fill): Diagnosis {
    var lot := LotOf(d.lots, f.symbol);
    if f.buy then d.(lots := d.lots[f.symbol := LotAfter(lot, f)])
    else if lot.shares <= 0.0 then d.(unmatched := d.unmatched + [f])
    else
      Diagnosis(d.lots[f.symbol := LotAfter(lot, f)], d.realized + Gain(lot, f),
                if f.quantity > lot.shares then d.unmatched + [f] else d.unmatched)
  }

  function Diagnose(fills: seq<Fill>): Diagnosis {
    if fills == [] then Diagnosis(map[], 0.0, []) else Diagnosed(Diagnose(fills[..|fills| - 1]), fills[|fills| - 1])
  }

  /** For valid fills the diagnostic walk agrees with the report on the total, on the lots and on how many
      sells are unmatched. */
  lemma {:induction false} DiagnosticAgrees(fills: seq<Fill>)
    requires forall f :: f in fills ==> Valid(f)
    ensures var d, l := Diagnose(fills), Walk(fills, "");
            d.lots == l.lots && d.realized == l.realized && |d.unmatched| == l.unmatched
  {
    if fills != [] {
      var init, f := fills[..|fills| - 1], fills[|fills| - 1];
      assert f in fills && forall g :: g in init ==> g in fills;
      DiagnosticAgrees(init);
    }
  }

  // The same position: an average says nothing where no share is left.
  predicate SameLot(a: Lot, b: Lot) { a.shares == b.shares && (a.shares != 0.0 ==> a.average == b.average) }

  // Same total, same number of unmatched sells, same positions.
  ghost predicate Agree(d: Diagnosis, l: Ledger) {
    d.realized == l.realized && |d.unmatched| == l.unmatched && forall x :: SameLot(LotOf(d.lots, x), LotOf(l.lots, x))
  }

  // A fill of no shares that does not sell what is not there.
  predicate Harmless(lot: Lot, f: Fill) { f.quantity == 0.0 && (f.buy || lot.shares > 0.0) }

  lemma AveragedAlike(a: Lot, b: Lot, f: Fill)
    requires SameLot(a, b)
    ensures Averaged(a, f) == Averaged(b, f)
  {
    if a.shares == 0.0 {
      assert Times(0.0, a.average) == 0.0 && Times(0.0, b.average) == 0.0;
    }
  }

  lemma NothingBought(lot: Lot, f: Fill)
    requires f.quantity == 0.0 && lot.shares != 0.0
    ensures Averaged(lot, f) == lot.average
  {
    assert Times(0.0, f.price) == 0.0;
  }

  // One lot under one fill, on both sides.
  lemma LotsStayAlike(a: Lot, b: Lot, f: Fill)
    requires SameLot(a, b) && a.shares >= 0.0 && f.quantity >= 0.0
    ensures SameLot(LotAfter(a, f), LotAfter(b, f))
    ensures !f.buy && a.shares > 0.0 ==> Gain(a, f) == Gain(b, f)
    ensures Harmless(a, f) ==> SameLot(LotAfter(a, f), b) && Gain(a, f) == 0.0
    ensures !Harmless(a, f) && (f.buy || a.shares > 0.0) ==> LotAfter(a, f).shares != b.shares
  {
    AveragedAlike(a, b, f);
    if Harmless(a, f) {
      NoGain(a, f);
      if a.shares != 0.0 { NothingBought(a, f); }
    }
  }

  // One fill: valid ones keep the walks together, and an invalid one does exactly when it is harmless.
  lemma FillAgrees(d: Diagnosis, l: Ledger, f: Fill)
    requires Agree(d, l) && NotNegative(l.lots) && f.quantity >= 0.0
    ensures Agree(Diagnosed(d, f), Booked(l, f, "")) <==> Valid(f) || Harmless(LotOf(l.lots, f.symbol), f)
  {
    var a, b := LotOf(d.lots, f.symbol), LotOf(l.lots, f.symbol);
    var e, m := Diagnosed(d, f), Booked(l, f, "");
    assert SameLot(a, b);
    LotsStayAlike(a, b, f);
    if f.buy || a.shares > 0.0 {
      assert LotOf(e.lots, f.symbol) == LotAfter(a, f);
    }
    assert forall x :: x != f.symbol ==> LotOf(e.lots, x) == LotOf(d.lots, x) && LotOf(m.lots, x) == LotOf(l.lots, x);
    if Valid(f) || Harmless(b, f) {
      forall x ensures SameLot(LotOf(e.lots, x), LotOf(m.lots, x)) {
        assert SameLot(LotOf(d.lots, x), LotOf(l.lots, x));
      }
    } else if f.buy || a.shares > 0.0 {
      assert !SameLot(LotOf(e.lots, f.symbol), LotOf(m.lots, f.symbol));
    }
  }

  ghost predicate AgreeThroughout(fills: seq<Fill>) {
    forall i :: 0 <= i <= |fills| ==> AgreeAt(fills, i)
  }

  // Every invalid fill does no harm where it stands.
  predicate HarmlessThroughout(fills: seq<Fill>) {
    fills == []
    || (var init, f := fills[..|fills| - 1], fills[|fills| - 1];
        HarmlessThroughout(init) && (Valid(f) || Harmless(LotOf(LotsFrom(init), f.symbol), f)))
  }

  ghost predicate AgreeAt(fills: seq<Fill>, i: nat)
    requires i <= |fills|
  {
    Agree(Diagnose(fills[..i]), Walk(fills[..i], ""))
  }

  lemma ThroughoutSplits(fills: seq<Fill>)
    requires fills != []
    ensures AgreeThroughout(fills) <==> AgreeThroughout(fills[..|fills| - 1]) && Agree(Diagnose(fills), Walk(fills, ""))
  {
    var init := fills[..|fills| - 1];
    AgreeAtEnd(fills);
    if AgreeThroughout(fills) {
      forall i | 0 <= i <= |init| ensures AgreeAt(init, i) { AgreeAtPrefix(fills, i); }
    }
    if AgreeThroughout(init) && AgreeAt(fills, |fills|) {
      forall i | 0 <= i < |fills| ensures AgreeAt(fills, i) { AgreeAtPrefix(fills, i); }
    }
  }

  lemma AgreeAtEnd(fills: seq<Fill>)
    ensures AgreeAt(fills, |fills|) == Agree(Diagnose(fills), Walk(fills, ""))
  {
    assert fills[..|fills|] == fills;
  }

  lemma AgreeAtPrefix(fills: seq<Fill>, i: nat)
    requires i < |fills|
    ensures AgreeAt(fills[..|fills| - 1], i) == AgreeAt(fills, i)
  {
    assert fills[..|fills| - 1][..i] == fills[..i];
  }

  /** The diagnostic walk agrees with the report at every fill exactly when every fill the report skips is one of
      no shares that does not sell what is not there. */
  lemma {:induction false} DiagnosticAgreesExactly(fills: seq<Fill>)
    requires forall f :: f in fills ==> f.quantity >= 0.0
    ensures AgreeThroughout(fills) <==> HarmlessThroughout(fills)
  {
    if fills != [] {
      var init, f := fills[..|fills| - 1], fills[|fills| - 1];
      assert f in fills && forall g :: g in init ==> g in fills;
      DiagnosticAgreesExactly(init);
      ThroughoutSplits(fills);
      if AgreeThroughout(init) {
        assert init[..|init|] == init && AgreeAt(init, |init|);
        SinceOnlyChoosesWhatCounts(init, "");
        SharesNeverNegative(init);
        FillAgrees(Diagnose(init), Walk(init, ""), f);
      }
    } else {
      assert fills[..0] == [] && AgreeAt(fills, 0);
    }
  }

  /** A fill without a price is where the two part: the report skips it, the diagnostic books a sale for
      nothing. */
  lemma UnpricedFillParts(x: Symbol)
    requires x != ""
    ensures var fills := [Fill(x, true, 1.0, 5.0, 1.0, "a"), Fill(x, false, 1.0, 0.0, 1.0, "b")];
            Walk(fills, "").realized == 0.0 && Diagnose(fills).realized == -5.0
  {
    var buy, sell := Fill(x, true, 1.0, 5.0, 1.0, "a"), Fill(x, false, 1.0, 0.0, 1.0, "b");
    assert [buy, sell][..1] == [buy] && [buy][..0] == [];
    assert Walk([buy], "") == Booked(EMPTY, buy, "");
    assert Diagnose([buy]) == Diagnosed(Diagnosis(map[], 0.0, []), buy);
    assert LotAfter(Lot(0.0, 0.0), buy) == Lot(1.0, 5.0);
    assert Gain(Lot(1.0, 5.0), sell) == -5.0;
  }
}
