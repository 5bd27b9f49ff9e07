/** The series a holder who reinvests every distribution would see, scaled to the newest close. */
module TotalReturn {
  import opened Sizing

  datatype Dividend = Dividend(exDate: int, amount: real)

  // The first bar at or after an ex-date.
  function OnOrAfter(stamps: seq<int>, exDate: int): (n: nat)
    ensures n <= |stamps| && (forall i :: 0 <= i < n ==> stamps[i] < exDate) && (n < |stamps| ==> stamps[n] >= exDate)
  {
    if stamps == [] then 0
    else
      var n := OnOrAfter(stamps[..|stamps| - 1], exDate);
      if n < |stamps| - 1 || stamps[|stamps| - 1] >= exDate then n else |stamps|
  }

  // What is paid at one bar.
  function PaidAt(stamps: seq<int>, dividends: seq<Dividend>, k: nat): real {
    if dividends == [] then 0.0
    else
      var last := dividends[|dividends| - 1];
      PaidAt(stamps, dividends[..|dividends| - 1], k) + if OnOrAfter(stamps, last.exDate) == k then last.amount else 0.0
  }

  method Payments(stamps: seq<int>, dividends: seq<Dividend>) returns (paid: seq<real>)
    ensures |paid| == |stamps| && forall k :: 0 <= k < |stamps| ==> paid[k] == PaidAt(stamps, dividends, k)
  {
    paid := seq(|stamps|, i => 0.0);
    for d := 0 to |dividends|
      invariant |paid| == |stamps| && forall k :: 0 <= k < |stamps| ==> paid[k] == PaidAt(stamps, dividends[..d], k)
    {
      assert dividends[..d + 1][..d] == dividends[..d];
      var n := OnOrAfter(stamps, dividends[d].exDate);
      if dividends[d].amount != 0.0 && n < |stamps| {
        paid := paid[n := paid[n] + dividends[d].amount];
      }
    }
    assert dividends[..|dividends|] == dividends;
  }

  function Growth(previous: real, close: real, paid: real): real {
    if previous > 0.0 then (close + paid) / previous else 1.0
  }

  // The compounded index, from one.
  function Index(closes: seq<real>, paid: seq<real>): real
    requires |closes| == |paid| > 0
  {
    var n := |closes| - 1;
    if n == 0 then 1.0
    else Times(Index(closes[..n], paid[..n]), Growth(closes[n - 1], closes[n], paid[n]))
  }

  function Over(x: real, y: real): real
    requires y != 0.0
  {
    x / y
  }

  function IndexAt(closes: seq<real>, paid: seq<real>, i: nat): real
    requires |closes| == |paid| && i < |closes|
  {
    Index(closes[..i + 1], paid[..i + 1])
  }

  // The value of the series at one bar: the index, scaled to end at the last close.
  function TotalReturnAt(closes: seq<real>, paid: seq<real>, i: nat): real
    requires |closes| == |paid| && i < |closes|
  {
    var final := Index(closes, paid);
    if final <= 0.0 then closes[i] else Times(IndexAt(closes, paid, i), Over(closes[|closes| - 1], final))
  }

  method TotalReturnIndex(stamps: seq<int>, closes: seq<real>, dividends: seq<Dividend>) returns (series: seq<real>)
    requires |stamps| == |closes|
    ensures |series| == |closes|
    ensures forall i :: 0 <= i < |closes| ==>
              series[i] == TotalReturnAt(closes, seq(|closes|, k requires k >= 0 => PaidAt(stamps, dividends, k)), i)
  {
    if closes == [] {
      return [];
    }
    var paid := Payments(stamps, dividends);
    assert paid == seq(|closes|, k requires k >= 0 => PaidAt(stamps, dividends, k));
    var index := [1.0];
    for i := 1 to |closes|
      invariant |index| == i && forall j :: 0 <= j < i ==> index[j] == IndexAt(closes, paid, j)
    {
      assert closes[..i + 1][..i] == closes[..i] && paid[..i + 1][..i] == paid[..i];
      index := index + [Times(index[i - 1], Growth(closes[i - 1], closes[i], paid[i]))];
    }
    assert closes[..|closes|] == closes && paid[..|closes|] == paid;
    var final := index[|index| - 1];
    if final <= 0.0 {
      return closes;
    }
    var scale := Over(closes[|closes| - 1], final);
    series := seq(|closes|, i requires 0 <= i < |index| => Times(index[i], scale));
  }

  // -- What the series is ------------------------------------------------------------------------

  ghost predicate Sane(closes: seq<real>, paid: seq<real>) {
    && |closes| == |paid| > 0
    && (forall i :: 0 <= i < |closes| ==> closes[i] > 0.0)
    && (forall i :: 0 <= i < |paid| ==> paid[i] >= 0.0)
  }

  // Facts about products and quotients, one at a time.
  lemma TimesPositive(x: real, y: real)
    requires x > 0.0 && y > 0.0
    ensures Times(x, y) > 0.0
  {
  }

  lemma OverPositive(x: real, y: real)
    requires x > 0.0 && y > 0.0
    ensures Over(x, y) > 0.0
  {
  }

  lemma TimesMonotone(x: real, y: real, z: real)
    requires x <= y && z >= 0.0
    ensures Times(x, z) <= Times(y, z) && Times(z, x) <= Times(z, y)
  {
  }

  lemma TimesStrict(x: real, y: real, z: real)
    requires x < y && z > 0.0
    ensures Times(x, z) < Times(y, z) && Times(z, x) < Times(z, y)
  {
  }

  lemma TimesAssociates(x: real, y: real, z: real)
    ensures Times(Times(x, y), z) == Times(x, Times(y, z)) && Times(x, y) == Times(y, x)
  {
  }

  lemma OverCancels(x: real, y: real)
    requires y > 0.0
    ensures Times(y, Over(x, y)) == x
  {
  }

  lemma CancelRight(x: real, y: real, z: real)
    requires z > 0.0 && Times(x, z) <= Times(y, z)
    ensures x <= y
  {
    assert Times(x, z) - Times(y, z) == Times(x - y, z);
    if x > y {
      TimesPositive(x - y, z);
    }
  }

  lemma GrowthTimes(previous: real, close: real, paid: real)
    requires previous > 0.0 && close > 0.0 && paid >= 0.0
    ensures Growth(previous, close, paid) > 0.0 && Times(previous, Growth(previous, close, paid)) == close + paid
  {
    OverPositive(close + paid, previous);
    OverCancels(close + paid, previous);
    assert Growth(previous, close, paid) == Over(close + paid, previous);
  }

  lemma {:induction false} IndexPositive(closes: seq<real>, paid: seq<real>)
    requires Sane(closes, paid)
    ensures Index(closes, paid) > 0.0
  {
    var n := |closes| - 1;
    if n > 0 {
      IndexPositive(closes[..n], paid[..n]);
      GrowthTimes(closes[n - 1], closes[n], paid[n]);
      TimesPositive(Index(closes[..n], paid[..n]), Growth(closes[n - 1], closes[n], paid[n]));
    }
  }

  lemma IndexAtPositive(closes: seq<real>, paid: seq<real>, i: nat)
    requires Sane(closes, paid) && i < |closes|
    ensures IndexAt(closes, paid, i) > 0.0 && Index(closes, paid) > 0.0
  {
    IndexPositive(closes[..i + 1], paid[..i + 1]);
    IndexPositive(closes, paid);
  }

  lemma IndexAtSteps(closes: seq<real>, paid: seq<real>, i: nat)
    requires Sane(closes, paid) && 0 < i < |closes|
    ensures IndexAt(closes, paid, i) == Times(IndexAt(closes, paid, i - 1), Growth(closes[i - 1], closes[i], paid[i]))
  {
    assert closes[..i + 1][..i] == closes[..i] && paid[..i + 1][..i] == paid[..i];
  }

  /** The series ends at the last raw close. */
  lemma EndsAtTheLastClose(closes: seq<real>, paid: seq<real>)
    requires Sane(closes, paid)
    ensures TotalReturnAt(closes, paid, |closes| - 1) == closes[|closes| - 1]
  {
    IndexPositive(closes, paid);
    assert closes[..|closes|] == closes && paid[..|closes|] == paid;
    OverCancels(closes[|closes| - 1], Index(closes, paid));
  }

  /** From one bar to the next, the series grows by exactly the close and what was paid, over the close
      before. */
  lemma GrowsByCloseAndPayment(closes: seq<real>, paid: seq<real>, i: nat)
    requires Sane(closes, paid) && 0 < i < |closes|
    ensures Times(TotalReturnAt(closes, paid, i), closes[i - 1])
            == Times(TotalReturnAt(closes, paid, i - 1), closes[i] + paid[i])
  {
    IndexPositive(closes, paid);
    IndexAtSteps(closes, paid, i);
    GrowthTimes(closes[i - 1], closes[i], paid[i]);
    var before, growth, scale := IndexAt(closes, paid, i - 1), Growth(closes[i - 1], closes[i], paid[i]),
                                 Over(closes[|closes| - 1], Index(closes, paid));
    Regroup(before, growth, scale, closes[i - 1]);
  }

  lemma Regroup(a: real, g: real, s: real, p: real)
    ensures Times(Times(Times(a, g), s), p) == Times(Times(a, s), Times(p, g))
  {
    TimesAssociates(Times(a, g), s, p);
    TimesAssociates(a, g, Times(s, p));
    TimesAssociates(s, p, g);
    TimesAssociates(g, Times(s, p), 1.0);
    TimesAssociates(a, s, Times(p, g));
  }

  // Nothing is paid after a bar.
  predicate NothingPaidAfter(paid: seq<real>, i: nat) { forall k :: i < k < |paid| ==> paid[k] == 0.0 }

  // The index outgrows the closes from any bar on, strictly once something is paid.
  lemma {:induction false} IndexOutgrows(closes: seq<real>, paid: seq<real>, i: nat)
    requires Sane(closes, paid) && i < |closes|
    ensures Times(IndexAt(closes, paid, i), closes[|closes| - 1]) <= Times(closes[i], Index(closes, paid))
    ensures Times(IndexAt(closes, paid, i), closes[|closes| - 1]) == Times(closes[i], Index(closes, paid))
            <==> NothingPaidAfter(paid, i)
  {
    var n := |closes| - 1;
    if i == n {
      assert closes[..n + 1] == closes && paid[..n + 1] == paid;
      TimesAssociates(Index(closes, paid), closes[n], 1.0);
    } else {
      var c, p := closes[..n], paid[..n];
      IndexOutgrows(c, p, i);
      assert c[..i + 1] == closes[..i + 1] && p[..i + 1] == paid[..i + 1];
      assert NothingPaidAfter(paid, i) <==> NothingPaidAfter(p, i) && paid[n] == 0.0;
      IndexAtPositive(closes, paid, i);
      OneMoreBar(IndexAt(closes, paid, i), closes[i], Index(c, p), closes[n - 1], closes[n], paid[n]);
    }
  }

  // Carrying the comparison one bar on.
  lemma OneMoreBar(index: real, close: real, last: real, previous: real, next: real, paid: real)
    requires index > 0.0 && previous > 0.0 && next > 0.0 && paid >= 0.0
    requires Times(index, previous) <= Times(close, last)
    ensures var carried := Times(close, Times(last, Growth(previous, next, paid)));
            && Times(index, next) <= carried
            && (Times(index, next) == carried <==> paid == 0.0 && Times(index, previous) == Times(close, last))
  {
    var g := Growth(previous, next, paid);
    GrowthTimes(previous, next, paid);
    TimesAssociates(index, previous, g);
    TimesAssociates(close, last, g);
    TimesMonotone(Times(index, previous), Times(close, last), g);
    TimesMonotone(next, next + paid, index);
    if Times(index, previous) < Times(close, last) { TimesStrict(Times(index, previous), Times(close, last), g); }
    if paid > 0.0 { TimesStrict(next, next + paid, index); }
  }

  /** The series never exceeds the raw close: what was paid since has been taken out of the past. It is the raw
      close exactly where nothing is paid after. */
  lemma NeverAboveTheClose(closes: seq<real>, paid: seq<real>, i: nat)
    requires Sane(closes, paid) && i < |closes|
    ensures 0.0 < TotalReturnAt(closes, paid, i) <= closes[i]
    ensures TotalReturnAt(closes, paid, i) == closes[i] <==> NothingPaidAfter(paid, i)
  {
    var last, final := closes[|closes| - 1], Index(closes, paid);
    IndexAtPositive(closes, paid, i);
    IndexOutgrows(closes, paid, i);
    OverPositive(last, final);
    TimesPositive(IndexAt(closes, paid, i), Over(last, final));
    ScaledBelow(IndexAt(closes, paid, i), last, final, closes[i]);
  }

  lemma ScaledBelow(index: real, last: real, final: real, close: real)
    requires final > 0.0 && Times(index, last) <= Times(close, final)
    ensures Times(index, Over(last, final)) <= close
    ensures Times(index, Over(last, final)) == close <==> Times(index, last) == Times(close, final)
  {
    OverCancels(last, final);
    TimesAssociates(index, Over(last, final), final);
    TimesAssociates(Over(last, final), final, 1.0);
    assert Times(Times(index, Over(last, final)), final) == Times(index, last);
    CancelRight(Times(index, Over(last, final)), close, final);
    if Times(index, last) == Times(close, final) {
      CancelRight(close, Times(index, Over(last, final)), final);
    }
  }

  // -- Where the payments land -------------------------------------------------------------------

  function Total(xs: seq<real>): real { if xs == [] then 0.0 else Total(xs[..|xs| - 1]) + xs[|xs| - 1] }

  // The dividends with an ex-date no later than some bar.
  function Reached(stamps: seq<int>, dividends: seq<Dividend>): real {
    if dividends == [] then 0.0
    else
      var last := dividends[|dividends| - 1];
      Reached(stamps, dividends[..|dividends| - 1]) + if OnOrAfter(stamps, last.exDate) < |stamps| then last.amount
        else 0.0
  }

  lemma {:induction false} TotalOfZeroes(n: nat)
    ensures Total(seq(n, i => 0.0)) == 0.0
  {
    if n > 0 {
      assert seq(n, i => 0.0)[..n - 1] == seq(n - 1, i => 0.0);
      TotalOfZeroes(n - 1);
    }
  }

  lemma {:induction false} TotalUpdated(xs: seq<real>, n: nat, x: real)
    requires n < |xs|
    ensures Total(xs[n := xs[n] + x]) == Total(xs) + x
  {
    var init := xs[..|xs| - 1];
    if n < |init| {
      assert xs[n := xs[n] + x][..|xs| - 1] == init[n := init[n] + x];
      TotalUpdated(init, n, x);
    } else {
      assert xs[n := xs[n] + x][..|xs| - 1] == init;
    }
  }

  /** Every distribution the window reaches is put back at exactly one bar: what is paid over all bars is
      what those distributions come to. */
  lemma {:induction false} PaymentsAddUp(stamps: seq<int>, dividends: seq<Dividend>, paid: seq<real>)
    requires |paid| == |stamps| && forall k :: 0 <= k < |stamps| ==> paid[k] == PaidAt(stamps, dividends, k)
    ensures Total(paid) == Reached(stamps, dividends)
  {
    if dividends == [] {
      assert paid == seq(|stamps|, i => 0.0);
      TotalOfZeroes(|stamps|);
    } else {
      var init, last := dividends[..|dividends| - 1], dividends[|dividends| - 1];
      var before := seq(|stamps|, k requires k >= 0 => PaidAt(stamps, init, k));
      PaymentsAddUp(stamps, init, before);
      var n := OnOrAfter(stamps, last.exDate);
      if n < |stamps| {
        assert paid == before[n := before[n] + last.amount];
        TotalUpdated(before, n, last.amount);
      } else {
        assert paid == before;
      }
    }
  }
}
