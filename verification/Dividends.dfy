/** Dividends in a replay: the trade date each one attaches to, and the cash as it comes in. */
module Dividends {
  import opened Wrappers
  import opened Integers
  import opened Sizing

  type Symbol = string
  type Date = int

  datatype Dividend = Dividend(symbol: Symbol, exDate: Date, amount: real, payableDate: Option<Date>)
  datatype Entitlement = Entitlement(payable: Date, symbol: Symbol, value: real)

  // Trade dates come in order, each once.
  ghost predicate InOrder(dates: seq<Date>) { forall i, j :: 0 <= i < j < |dates| ==> dates[i] < dates[j] }

  // The first trade date on or after a date.
  function FirstOnOrAfter(dates: seq<Date>, d: Date): Option<Date> {
    if dates == [] then None
    else
      var n := |dates| - 1;
      var earlier := FirstOnOrAfter(dates[..n], d);
      if earlier.Some? then earlier else if dates[n] >= d then Some(dates[n]) else None
  }

  // It is one of the dates, late enough, and no earlier date is.
  ghost predicate IsFirst(dates: seq<Date>, d: Date, first: Option<Date>) {
    match first
    case Some(t) => t in dates && t >= d && forall u :: u in dates && u >= d ==> t <= u
    case None => forall u :: u in dates ==> u < d
  }

  lemma {:induction false} FirstIsFirst(dates: seq<Date>, d: Date)
    requires InOrder(dates)
    ensures IsFirst(dates, d, FirstOnOrAfter(dates, d))
  {
    if dates != [] {
      var n := |dates| - 1;
      FirstIsFirst(dates[..n], d);
      assert dates == dates[..n] + [dates[n]];
      assert forall u :: u in dates[..n] ==> u < dates[n];
    }
  }

  // The trade date a dividend attaches to; none for those with an ex-date before the first of them.
  function Landing(dates: seq<Date>, d: Dividend): Option<Date> {
    if dates == [] || d.exDate < dates[0] then None else FirstOnOrAfter(dates, d.exDate)
  }

  // The dividends that attach to one trade date, in the order they are listed.
  function Due(items: seq<Dividend>, dates: seq<Date>, t: Date): seq<Dividend> {
    if items == [] then []
    else
      var rest, last := Due(items[..|items| - 1], dates, t), items[|items| - 1];
      if Landing(dates, last) == Some(t) then rest + [last] else rest
  }

  function Entry(schedule: map<Date, seq<Dividend>>, t: Date): seq<Dividend> {
    if t in schedule then schedule[t] else []
  }

  method DividendSchedule(items: seq<Dividend>, dates: seq<Date>) returns (schedule: map<Date, seq<Dividend>>)
    ensures forall t :: Entry(schedule, t) == Due(items, dates, t)
  {
    schedule := map[];
    if dates == [] {
      forall t ensures Due(items, dates, t) == [] { NothingDue(items, t); }
      return;
    }
    for i := 0 to |items|
      invariant forall t :: Entry(schedule, t) == Due(items[..i], dates, t)
    {
      assert items[..i + 1][..i] == items[..i];
      var landing := Landing(dates, items[i]);
      if landing.Some? {
        schedule := schedule[landing.value := Entry(schedule, landing.value) + [items[i]]];
      }
    }
    assert items[..|items|] == items;
  }

  lemma {:induction false} NothingDue(items: seq<Dividend>, t: Date)
    ensures Due(items, [], t) == []
  {
    if items != [] {
      NothingDue(items[..|items| - 1], t);
    }
  }

  /** A dividend attaches to exactly one trade date, the first on or after its ex-date, when the ex-date lies
      within the replay, and to none when it does not. */
  lemma {:induction false} EachLandsOnce(items: seq<Dividend>, dates: seq<Date>, d: Dividend, t: Date)
    requires InOrder(dates) && dates != [] && d in items
    ensures d in Due(items, dates, t)
            <==> dates[0] <= d.exDate <= t && t in dates && forall u :: u in dates && u >= d.exDate ==> t <= u
  {
    DueWhereItLands(items, dates, d, t);
    FirstIsFirst(dates, d.exDate);
  }

  lemma {:induction false} DueWhereItLands(items: seq<Dividend>, dates: seq<Date>, d: Dividend, t: Date)
    ensures d in Due(items, dates, t) <==> d in items && Landing(dates, d) == Some(t)
  {
    if items != [] {
      var init, last := items[..|items| - 1], items[|items| - 1];
      DueWhereItLands(init, dates, d, t);
      assert items == init + [last];
    }
  }

  // The trade date the cash lands on.
  function PayableOn(exTrade: Date, d: Dividend, dates: seq<Date>): Date
    requires dates != []
  {
    if d.payableDate.None? then exTrade
    else Greatest(FirstOnOrAfter(dates, d.payableDate.value).GetOr(dates[|dates| - 1]), exTrade)
  }

  /** Cash lands on a trade date of the replay, never before the date the dividend attached to, and never
      before the payable date unless the replay ends first; and on the first such date. */
  lemma PayableIsATradeDate(exTrade: Date, d: Dividend, dates: seq<Date>)
    requires InOrder(dates) && exTrade in dates
    ensures var t := PayableOn(exTrade, d, dates);
            && t in dates && exTrade <= t
            && (d.payableDate.Some? && t < d.payableDate.value ==> t == dates[|dates| - 1])
            && forall u :: u in dates && u >= exTrade && u >= d.payableDate.GetOr(exTrade) ==> t <= u
  {
    if d.payableDate.Some? {
      FirstIsFirst(dates, d.payableDate.value);
      var k :| 0 <= k < |dates| && dates[k] == exTrade;
      assert exTrade <= dates[|dates| - 1];
    }
  }

  // -- The cash, date by date ----------------------------------------------------------------------

  // What is held going into a date is up to the strategy.
  type Holdings = (Date, Symbol) -> real

  datatype Credit = Credit(date: Date, entitlement: Entitlement)
  // `earned` and `credited` remember every entitlement there was and every one that was paid.
  datatype Cash = Cash(pending: seq<Entitlement>, income: real, earned: seq<Entitlement>, credited: seq<Credit>)

  const NOTHING := Cash([], 0.0, [], [])

  function Worth(shares: real, amount: real): real { shares * amount }

  // The entitlements one date's dividends open.
  function Opened(due: seq<Dividend>, t: Date, dates: seq<Date>, held: Holdings): seq<Entitlement>
    requires dates != []
  {
    if due == [] then []
    else
      var last := due[|due| - 1];
      var shares := held(t, last.symbol);
      var rest := Opened(due[..|due| - 1], t, dates, held);
      if Abs(shares) > SHARE_EPSILON then
        rest + [Entitlement(PayableOn(t, last, dates), last.symbol, Worth(shares, last.amount))]
      else rest
  }

  function Payable(pending: seq<Entitlement>, t: Date): seq<Entitlement> {
    if pending == [] then []
    else
      var rest, last := Payable(pending[..|pending| - 1], t), pending[|pending| - 1];
      if last.payable <= t then rest + [last] else rest
  }

  function Waiting(pending: seq<Entitlement>, t: Date): seq<Entitlement> {
    if pending == [] then []
    else
      var rest, last := Waiting(pending[..|pending| - 1], t), pending[|pending| - 1];
      if last.payable <= t then rest else rest + [last]
  }

  function Value(es: seq<Entitlement>): real { if es == [] then 0.0 else Value(es[..|es| - 1]) + es[|es| - 1].value }

  function Credits(es: seq<Entitlement>, t: Date): seq<Credit> {
    seq(|es|, i requires 0 <= i < |es| => Credit(t, es[i]))
  }

  function Step(c: Cash, t: Date, due: seq<Dividend>, dates: seq<Date>, held: Holdings): Cash
    requires dates != []
  {
    var earned := Opened(due, t, dates, held);
    var paid := Payable(c.pending + earned, t);
    Cash(Waiting(c.pending + earned, t), c.income + Value(paid), c.earned + earned, c.credited + Credits(paid, t))
  }

  function Run(n: nat, items: seq<Dividend>, dates: seq<Date>, held: Holdings): Cash
    requires n <= |dates|
  {
    if n == 0 then NOTHING
    else Step(Run(n - 1, items, dates, held), dates[n - 1], Due(items, dates, dates[n - 1]), dates, held)
  }

  method Open(due: seq<Dividend>, t: Date, dates: seq<Date>, held: Holdings) returns (es: seq<Entitlement>)
    requires dates != []
    ensures es == Opened(due, t, dates, held)
  {
    es := [];
    for d := 0 to |due|
      invariant es == Opened(due[..d], t, dates, held)
    {
      assert due[..d + 1][..d] == due[..d];
      var shares := held(t, due[d].symbol);
      if Abs(shares) > SHARE_EPSILON {
        es := es + [Entitlement(PayableOn(t, due[d], dates), due[d].symbol, Worth(shares, due[d].amount))];
      }
    }
    assert due[..|due|] == due;
  }

  // Takes out what is due and adds it up.
  method Collect(pending: seq<Entitlement>, t: Date) returns (still: seq<Entitlement>, paid: real)
    ensures still == Waiting(pending, t) && paid == Value(Payable(pending, t))
  {
    still, paid := [], 0.0;
    for i := 0 to |pending|
      invariant still == Waiting(pending[..i], t) && paid == Value(Payable(pending[..i], t))
    {
      assert pending[..i + 1][..i] == pending[..i];
      if pending[i].payable <= t {
        ValueAppended(Payable(pending[..i], t), pending[i]);
        paid := paid + pending[i].value;
      } else {
        still := still + [pending[i]];
      }
    }
    assert pending[..|pending|] == pending;
  }

  method Replay(items: seq<Dividend>, dates: seq<Date>, held: Holdings)
    returns (income: real, pending: seq<Entitlement>)
    ensures income == Run(|dates|, items, dates, held).income && pending == Run(|dates|, items, dates, held).pending
  {
    var schedule := DividendSchedule(items, dates);
    income, pending := 0.0, [];
    ghost var c := NOTHING;
    for i := 0 to |dates|
      invariant c == Run(i, items, dates, held) && income == c.income && pending == c.pending
    {
      var due := Entry(schedule, dates[i]);
      var more := Open(due, dates[i], dates, held);
      c := Step(c, dates[i], due, dates, held);
      var paid;
      pending, paid := Collect(pending + more, dates[i]);
      income := income + paid;
    }
  }

  // -- Conservation ------------------------------------------------------------------------------------

  function EntitlementsOf(credits: seq<Credit>): seq<Entitlement> {
    seq(|credits|, i requires 0 <= i < |credits| => credits[i].entitlement)
  }

  lemma {:induction false} SplitByDate(pending: seq<Entitlement>, t: Date)
    ensures multiset(Payable(pending, t)) + multiset(Waiting(pending, t)) == multiset(pending)
  {
    if pending != [] {
      var init, last := pending[..|pending| - 1], pending[|pending| - 1];
      SplitByDate(init, t);
      assert pending == init + [last];
    }
  }

  lemma {:induction false} ValueByDate(pending: seq<Entitlement>, t: Date)
    ensures Value(Payable(pending, t)) + Value(Waiting(pending, t)) == Value(pending)
  {
    if pending != [] {
      var init, last := pending[..|pending| - 1], pending[|pending| - 1];
      ValueByDate(init, t);
      if last.payable <= t { ValueAppended(Payable(init, t), last); } else { ValueAppended(Waiting(init, t), last); }
    }
  }

  lemma {:induction false} DueOrNot(pending: seq<Entitlement>, t: Date, e: Entitlement)
    ensures e in Payable(pending, t) <==> e in pending && e.payable <= t
    ensures e in Waiting(pending, t) <==> e in pending && e.payable > t
  {
    if pending != [] {
      DueOrNot(pending[..|pending| - 1], t, e);
      assert e in pending <==> e in pending[..|pending| - 1] || e == pending[|pending| - 1];
    }
  }

  lemma ValueAppended(es: seq<Entitlement>, e: Entitlement)
    ensures Value(es + [e]) == Value(es) + e.value
  {
    assert (es + [e])[..|es|] == es;
  }

  lemma {:induction false} ValueOfBoth(a: seq<Entitlement>, b: seq<Entitlement>)
    ensures Value(a + b) == Value(a) + Value(b)
  {
    if b == [] {
      assert a + b == a;
    } else {
      assert (a + b)[..|a + b| - 1] == a + b[..|b| - 1];
      ValueOfBoth(a, b[..|b| - 1]);
    }
  }

  lemma EntitlementsAppended(credits: seq<Credit>, paid: seq<Entitlement>, t: Date)
    ensures EntitlementsOf(credits + Credits(paid, t)) == EntitlementsOf(credits) + paid
  {
  }

  lemma StepKeepsDollars(c: Cash, t: Date, due: seq<Dividend>, dates: seq<Date>, held: Holdings)
    requires dates != [] && c.income + Value(c.pending) == Value(c.earned)
    ensures var d := Step(c, t, due, dates, held); d.income + Value(d.pending) == Value(d.earned)
  {
    var earned := Opened(due, t, dates, held);
    ValueByDate(c.pending + earned, t);
    ValueOfBoth(c.pending, earned);
    ValueOfBoth(c.earned, earned);
  }

  lemma StepKeepsEntitlements(c: Cash, t: Date, due: seq<Dividend>, dates: seq<Date>, held: Holdings)
    requires dates != [] && multiset(EntitlementsOf(c.credited)) + multiset(c.pending) == multiset(c.earned)
    ensures var d := Step(c, t, due, dates, held);
            multiset(EntitlementsOf(d.credited)) + multiset(d.pending) == multiset(d.earned)
  {
    var earned := Opened(due, t, dates, held);
    var paid, waiting := Payable(c.pending + earned, t), Waiting(c.pending + earned, t);
    SplitByDate(c.pending + earned, t);
    EntitlementsAppended(c.credited, paid, t);
    MovedOver(EntitlementsOf(c.credited), c.pending, c.earned, earned, paid, waiting);
  }

  lemma MovedOver(credited: seq<Entitlement>, pending: seq<Entitlement>, before: seq<Entitlement>,
                  more: seq<Entitlement>, paid: seq<Entitlement>, waiting: seq<Entitlement>)
    requires multiset(credited) + multiset(pending) == multiset(before)
    requires multiset(paid) + multiset(waiting) == multiset(pending + more)
    ensures multiset(credited + paid) + multiset(waiting) == multiset(before + more)
  {
    assert multiset(pending + more) == multiset(pending) + multiset(more);
    assert multiset(credited + paid) + multiset(waiting) == multiset(credited) + (multiset(paid) + multiset(waiting));
  }

  // Paid and pending come to what was earned, in dollars; and entitlement by entitlement, each is paid or
  // pending, once.
  ghost predicate Conserved(c: Cash) {
    && c.income + Value(c.pending) == Value(c.earned)
    && multiset(EntitlementsOf(c.credited)) + multiset(c.pending) == multiset(c.earned)
  }

  lemma StepConserves(c: Cash, t: Date, due: seq<Dividend>, dates: seq<Date>, held: Holdings)
    requires dates != [] && Conserved(c)
    ensures Conserved(Step(c, t, due, dates, held))
  {
    StepKeepsDollars(c, t, due, dates, held);
    StepKeepsEntitlements(c, t, due, dates, held);
  }

  /** Nothing is lost on any date: whatever was earned so far is paid or pending, and nothing is either twice. */
  lemma {:induction false} PaidPlusPendingIsEarned(n: nat, items: seq<Dividend>, dates: seq<Date>, held: Holdings)
    requires n <= |dates|
    ensures Conserved(Run(n, items, dates, held))
  {
    if n > 0 {
      PaidPlusPendingIsEarned(n - 1, items, dates, held);
      var c, t := Run(n - 1, items, dates, held), dates[n - 1];
      var d := Step(c, t, Due(items, dates, t), dates, held);
      StepConserves(c, t, Due(items, dates, t), dates, held);
      assert Run(n, items, dates, held) == d;
    }
  }

  lemma {:induction false} OpenedLater(due: seq<Dividend>, t: Date, dates: seq<Date>, held: Holdings)
    requires InOrder(dates) && t in dates
    ensures forall e :: e in Opened(due, t, dates, held) ==> e.payable in dates && t <= e.payable
  {
    if due != [] {
      OpenedLater(due[..|due| - 1], t, dates, held);
      PayableIsATradeDate(t, due[|due| - 1], dates);
    }
  }

  // Nothing pending is overdue, and everything credited was credited on the day.
  ghost predicate OnTime(c: Cash, n: nat, dates: seq<Date>)
    requires n <= |dates|
  {
    && (forall e :: e in c.pending ==> Ahead(e, n, dates))
    && (forall k :: k in c.credited ==> k.date == k.entitlement.payable && k.date in dates[..n])
  }

  ghost predicate Ahead(e: Entitlement, n: nat, dates: seq<Date>) {
    exists k :: n <= k < |dates| && dates[k] == e.payable
  }

  lemma AheadOrNow(e: Entitlement, n: nat, dates: seq<Date>)
    requires InOrder(dates) && n < |dates| && Ahead(e, n, dates)
    ensures if e.payable <= dates[n] then e.payable == dates[n] else Ahead(e, n + 1, dates)
  {
  }

  lemma OpenedAhead(due: seq<Dividend>, n: nat, dates: seq<Date>, held: Holdings, e: Entitlement)
    requires InOrder(dates) && n < |dates| && e in Opened(due, dates[n], dates, held)
    ensures Ahead(e, n, dates)
  {
    OpenedLater(due, dates[n], dates, held);
    var k :| 0 <= k < |dates| && dates[k] == e.payable;
    assert k >= n;
  }

  lemma StepOnTime(c: Cash, n: nat, due: seq<Dividend>, dates: seq<Date>, held: Holdings)
    requires InOrder(dates) && n < |dates| && OnTime(c, n, dates)
    ensures OnTime(Step(c, dates[n], due, dates, held), n + 1, dates)
  {
    var t := dates[n];
    var all, next := c.pending + Opened(due, t, dates, held), Step(c, t, due, dates, held);
    forall e | e in all ensures Ahead(e, n, dates) {
      if e !in c.pending { OpenedAhead(due, n, dates, held, e); }
    }
    forall e | e in next.pending ensures Ahead(e, n + 1, dates) {
      DueOrNot(all, t, e);
      AheadOrNow(e, n, dates);
    }
    assert dates[..n + 1] == dates[..n] + [t];
    forall k | k in next.credited ensures k.date == k.entitlement.payable && k.date in dates[..n + 1] {
      if k !in c.credited {
        DueOrNot(all, t, k.entitlement);
        AheadOrNow(k.entitlement, n, dates);
      }
    }
  }

  /** Each entitlement is credited on its payable date and no other, and nothing is left pending once that
      date is past. */
  lemma {:induction false} CreditedOnTheDay(n: nat, items: seq<Dividend>, dates: seq<Date>, held: Holdings)
    requires InOrder(dates) && n <= |dates|
    ensures OnTime(Run(n, items, dates, held), n, dates)
  {
    if n > 0 {
      CreditedOnTheDay(n - 1, items, dates, held);
      StepOnTime(Run(n - 1, items, dates, held), n - 1, Due(items, dates, dates[n - 1]), dates, held);
    }
  }

  lemma NoneAhead(es: seq<Entitlement>, dates: seq<Date>)
    requires forall e :: e in es ==> Ahead(e, |dates|, dates)
    ensures es == []
  {
    var all := multiset(es);
    assert all != multiset{} ==> exists e :: e in all;
    assert forall e :: e in all ==> e in es;
    assert |all| == |es|;
  }

  /** After the last date nothing is pending, and the income is everything that was earned. */
  lemma NothingPendingAtTheEnd(items: seq<Dividend>, dates: seq<Date>, held: Holdings)
    requires InOrder(dates)
    ensures var c := Run(|dates|, items, dates, held);
            c.pending == [] && c.income == Value(c.earned) && multiset(EntitlementsOf(c.credited)) == multiset(c.earned)
  {
    var c := Run(|dates|, items, dates, held);
    CreditedOnTheDay(|dates|, items, dates, held);
    PaidPlusPendingIsEarned(|dates|, items, dates, held);
    NoneAhead(c.pending, dates);
  }

  // -- What is earned --------------------------------------------------------------------------------

  // One dividend's worth to whoever holds the shares on the trade date it attaches to, among the first `n`.
  function WorthOf(d: Dividend, dates: seq<Date>, n: nat, held: Holdings): real
    requires n <= |dates|
  {
    match Landing(dates, d)
    case None => 0.0
    case Some(t) =>
      if t in dates[..n] then Entitled(held(t, d.symbol), d.amount) else 0.0
  }

  // What so many shares are paid, if they are more than dust.
  function Entitled(shares: real, amount: real): real {
    if -0.000000001 <= shares <= 0.000000001 then 0.0 else shares * amount
  }

  function WorthOfAll(items: seq<Dividend>, dates: seq<Date>, n: nat, held: Holdings): real
    requires n <= |dates|
  {
    if items == [] then 0.0
    else WorthOfAll(items[..|items| - 1], dates, n, held) + WorthOf(items[|items| - 1], dates, n, held)
  }

  // What one date's dividends open adds up to, dividend by dividend.
  lemma OpenedOneMore(due: seq<Dividend>, d: Dividend, t: Date, dates: seq<Date>, held: Holdings)
    requires dates != []
    ensures Value(Opened(due + [d], t, dates, held))
            == Value(Opened(due, t, dates, held)) + Entitled(held(t, d.symbol), d.amount)
  {
    assert (due + [d])[..|due|] == due;
    WorthIsEntitled(held(t, d.symbol), d.amount);
    ValueAppended(Opened(due, t, dates, held),
                  Entitlement(PayableOn(t, d, dates), d.symbol, Worth(held(t, d.symbol), d.amount)));
  }

  lemma WorthIsEntitled(shares: real, amount: real)
    ensures Entitled(shares, amount) == if Abs(shares) > SHARE_EPSILON then Worth(shares, amount) else 0.0
  {
  }

  lemma WorthOneMoreDate(d: Dividend, dates: seq<Date>, n: nat, held: Holdings)
    requires InOrder(dates) && n < |dates|
    ensures WorthOf(d, dates, n + 1, held)
            == WorthOf(d, dates, n, held)
               + if Landing(dates, d) == Some(dates[n]) then Entitled(held(dates[n], d.symbol), d.amount) else 0.0
  {
    assert dates[..n + 1] == dates[..n] + [dates[n]];
    assert dates[n] !in dates[..n];
  }

  lemma {:induction false} OpenedAddsUp(items: seq<Dividend>, dates: seq<Date>, n: nat, held: Holdings)
    requires InOrder(dates) && n < |dates|
    ensures WorthOfAll(items, dates, n + 1, held)
            == WorthOfAll(items, dates, n, held)
               + Value(Opened(Due(items, dates, dates[n]), dates[n], dates, held))
  {
    if items != [] {
      var init, last := items[..|items| - 1], items[|items| - 1];
      OpenedAddsUp(init, dates, n, held);
      WorthOneMoreDate(last, dates, n, held);
      OpenedOneMore(Due(init, dates, dates[n]), last, dates[n], dates, held);
    }
  }

  /** What has been earned after any number of dates is the shares held going into each dividend's trade date, times
      its amount, over all dividends that have attached by then. */
  lemma {:induction false} EarnedIsSharesTimesAmount(items: seq<Dividend>, dates: seq<Date>, n: nat, held: Holdings)
    requires InOrder(dates) && n <= |dates|
    ensures Value(Run(n, items, dates, held).earned) == WorthOfAll(items, dates, n, held)
  {
    if n == 0 {
      NothingEarnedYet(items, dates, held);
    } else {
      EarnedIsSharesTimesAmount(items, dates, n - 1, held);
      EarnedOneMore(items, dates, n - 1, held);
    }
  }

  lemma NothingEarnedYet(items: seq<Dividend>, dates: seq<Date>, held: Holdings)
    ensures Value(Run(0, items, dates, held).earned) == WorthOfAll(items, dates, 0, held)
  {
    NothingYet(items, dates, held);
  }

  lemma EarnedOneMore(items: seq<Dividend>, dates: seq<Date>, n: nat, held: Holdings)
    requires InOrder(dates) && n < |dates|
    requires Value(Run(n, items, dates, held).earned) == WorthOfAll(items, dates, n, held)
    ensures Value(Run(n + 1, items, dates, held).earned) == WorthOfAll(items, dates, n + 1, held)
  {
    var c, more := Run(n, items, dates, held), Opened(Due(items, dates, dates[n]), dates[n], dates, held);
    OpenedAddsUp(items, dates, n, held);
    ValueOfBoth(c.earned, more);
    assert Run(n + 1, items, dates, held) == Step(c, dates[n], Due(items, dates, dates[n]), dates, held);
    assert Step(c, dates[n], Due(items, dates, dates[n]), dates, held).earned == c.earned + more;
  }

  lemma {:induction false} NothingYet(items: seq<Dividend>, dates: seq<Date>, held: Holdings)
    ensures WorthOfAll(items, dates, 0, held) == 0.0
  {
    if items != [] {
      NothingYet(items[..|items| - 1], dates, held);
    }
  }

  // The entitlement one dividend opens on a trade date.
  ghost predicate OpenedBy(e: Entitlement, d: Dividend, t: Date, dates: seq<Date>, held: Holdings)
    requires dates != []
  {
    && Landing(dates, d) == Some(t) && e.symbol == d.symbol && e.payable == PayableOn(t, d, dates)
    && e.value == held(t, d.symbol) * d.amount
  }

  lemma {:induction false} OpenedFrom(due: seq<Dividend>, t: Date, dates: seq<Date>, held: Holdings, e: Entitlement)
    requires dates != [] && e in Opened(due, t, dates, held)
    requires forall d :: d in due ==> Landing(dates, d) == Some(t)
    ensures exists d :: d in due && OpenedBy(e, d, t, dates, held)
  {
    var init, last := due[..|due| - 1], due[|due| - 1];
    assert last in due && forall d :: d in init ==> d in due;
    if e in Opened(init, t, dates, held) {
      OpenedFrom(init, t, dates, held, e);
      var d :| d in init && OpenedBy(e, d, t, dates, held);
      assert d in due;
    } else {
      assert OpenedBy(e, last, t, dates, held);
    }
  }

  /** Every entitlement there ever was is some dividend's, opened on the trade date it attaches to. */
  lemma {:induction false} EarnedFrom(items: seq<Dividend>, dates: seq<Date>, n: nat, held: Holdings, e: Entitlement)
    requires InOrder(dates) && n <= |dates| && e in Run(n, items, dates, held).earned
    ensures exists d, t :: d in items && t in dates[..n] && OpenedBy(e, d, t, dates, held)
  {
    var t := dates[n - 1];
    assert t in dates[..n] && forall u :: u in dates[..n - 1] ==> u in dates[..n];
    if e in Run(n - 1, items, dates, held).earned {
      EarnedFrom(items, dates, n - 1, held, e);
      var d, u :| d in items && u in dates[..n - 1] && OpenedBy(e, d, u, dates, held);
    } else {
      var due := Due(items, dates, t);
      forall d | d in due ensures d in items && Landing(dates, d) == Some(t) { DueWhereItLands(items, dates, d, t); }
      OpenedFrom(due, t, dates, held, e);
      var d :| d in due && OpenedBy(e, d, t, dates, held);
    }
  }
}
