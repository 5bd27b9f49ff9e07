/** Share arithmetic: the grids orders are sized on, and the three roundings the planner uses. */
module Sizing {
  const SHARE_EPSILON: real := 0.000000001
  const FUNDING_EPSILON: real := 0.01
  const LIQUIDATION_PAD: real := 0.005

  function Abs(x: real): real { if x >= 0.0 then x else -x }
  function Max(x: real, y: real): real { if x >= y then x else y }
  function Min(x: real, y: real): real { if x <= y then x else y }

  // A product by name, so that laws about products can be used one at a time.
  function Times(x: real, y: real): real { x * y }

  lemma TimesPositive(x: real, y: real)
    requires x > 0.0 && y > 0.0
    ensures Times(x, y) > 0.0
  {
  }

  lemma TimesKeepsOrder(x: real, y: real, price: real)
    requires price > 0.0
    ensures (x < y <==> Times(x, price) < Times(y, price)) && (x == y <==> Times(x, price) == Times(y, price))
  {
    assert Times(y, price) - Times(x, price) == Times(y - x, price) == -Times(x - y, price);
    if x < y {
      TimesPositive(y - x, price);
    } else if y < x {
      TimesPositive(x - y, price);
    }
  }

  lemma TimesQuotient(x: real, y: real)
    requires y != 0.0
    ensures Times(x / y, y) == x
  {
  }

  // How many grid steps one share is worth: whole shares, or hundredths where fractions are accepted.
  function Scale(fractional: bool): real { if fractional then 100.0 else 1.0 }

  function Unit(fractional: bool): real { 1.0 / Scale(fractional) }

  function Truncate(x: real): int { if x >= 0.0 then x.Floor else -((-x).Floor) }
  function Ceiling(x: real): int { -((-x).Floor) }

  function RoundShares(raw: real, fractional: bool): real {
    Truncate(raw * Scale(fractional)) as real / Scale(fractional)
  }

  function RoundUpShares(raw: real, fractional: bool): real {
    Ceiling(raw * Scale(fractional)) as real / Scale(fractional)
  }

  // The nearest integer, halves to the even neighbour.
  function RoundHalfEven(x: real): int {
    var n := x.Floor;
    if x - n as real < 0.5 || (x - n as real == 0.5 && n % 2 == 0) then n else n + 1
  }

  function RoundCents(x: real): real { RoundHalfEven(x * 100.0) as real / 100.0 }

  // A whole number of grid steps.
  predicate OnGrid(x: real, fractional: bool) {
    (x * Scale(fractional)).Floor as real == x * Scale(fractional)
  }

  lemma TruncateTowardZero(x: real)
    ensures var n := Truncate(x) as real;
            && Abs(n) <= Abs(x) && Abs(x) - Abs(n) < 1.0
            && (x >= 0.0 ==> n >= 0.0) && (x <= 0.0 ==> n <= 0.0)
            && (n == x <==> x.Floor as real == x)
  {
    if x < 0.0 && x.Floor as real == x {
      assert (-x).Floor == -(x.Floor);
    }
  }

  /** Sizing never overshoots: the rounded count is no larger than asked for, less than one step away
      from it, never on the other side of zero, and exact just for amounts already on the grid. */
  lemma RoundSharesTowardZero(raw: real, fractional: bool)
    ensures var r := RoundShares(raw, fractional);
            && OnGrid(r, fractional)
            && Abs(r) <= Abs(raw) && Abs(raw) - Abs(r) < Unit(fractional)
            && (raw >= 0.0 ==> r >= 0.0) && (raw <= 0.0 ==> r <= 0.0)
            && (r == raw <==> OnGrid(raw, fractional))
  {
    if fractional { CentsTowardZero(raw); } else { WholesTowardZero(raw); }
  }

  lemma StepsOnGrid(r: real, n: int, fractional: bool)
    requires r * Scale(fractional) == n as real
    ensures OnGrid(r, fractional)
  {
    FloorOfInt(n);
  }

  lemma CentsTowardZero(raw: real)
    ensures var r := RoundShares(raw, true);
            && OnGrid(r, true)
            && Abs(r) <= Abs(raw) && Abs(raw) - Abs(r) < 0.01
            && (raw >= 0.0 ==> r >= 0.0) && (raw <= 0.0 ==> r <= 0.0)
            && (r == raw <==> OnGrid(raw, true))
  {
    var n := Truncate(raw * 100.0);
    TruncateTowardZero(raw * 100.0);
    assert RoundShares(raw, true) * 100.0 == n as real;
    StepsOnGrid(RoundShares(raw, true), n, true);
  }

  lemma WholesTowardZero(raw: real)
    ensures var r := RoundShares(raw, false);
            && OnGrid(r, false)
            && Abs(r) <= Abs(raw) && Abs(raw) - Abs(r) < 1.0
            && (raw >= 0.0 ==> r >= 0.0) && (raw <= 0.0 ==> r <= 0.0)
            && (r == raw <==> OnGrid(raw, false))
  {
    var n := Truncate(raw * 1.0);
    TruncateTowardZero(raw * 1.0);
    assert RoundShares(raw, false) * 1.0 == n as real;
    StepsOnGrid(RoundShares(raw, false), n, false);
  }

  // Share rounding as a value, for the algorithms that only rely on what it promises.
  function ToShares(fractional: bool): real -> real { x => RoundShares(x, fractional) }

  // Toward zero by less than `unit`, and never to less than a whole unit without reaching zero.
  ghost predicate RoundsDown(round: real -> real, unit: real) {
    && unit > SHARE_EPSILON
    && (forall x :: x >= 0.0 ==> 0.0 <= round(x) <= x < round(x) + unit)
    && (forall x :: x >= 0.0 ==> round(x) == 0.0 || round(x) >= unit)
    && (forall x :: x <= 0.0 ==> round(x) <= 0.0)
  }

  lemma SharesRoundDown(fractional: bool)
    ensures RoundsDown(ToShares(fractional), Unit(fractional))
  {
    forall x
      ensures x >= 0.0 ==> var r := ToShares(fractional)(x);
              0.0 <= r <= x < r + Unit(fractional) && (r == 0.0 || r >= Unit(fractional))
      ensures x <= 0.0 ==> ToShares(fractional)(x) <= 0.0
    {
      SharesRoundDownAt(x, fractional);
    }
    UnitIsWorthSomething(fractional);
  }

  lemma UnitIsWorthSomething(fractional: bool)
    ensures Unit(fractional) > SHARE_EPSILON
  {
  }

  lemma SharesRoundDownAt(x: real, fractional: bool)
    ensures var r := RoundShares(x, fractional);
            && (x >= 0.0 ==> 0.0 <= r <= x < r + Unit(fractional) && (r == 0.0 || r >= Unit(fractional)))
            && (x <= 0.0 ==> r <= 0.0)
  {
    RoundSharesTowardZero(x, fractional);
    WholeUnits(Truncate(x * Scale(fractional)), fractional);
  }

  lemma WholeUnits(n: int, fractional: bool)
    ensures n >= 1 ==> n as real / Scale(fractional) >= Unit(fractional)
    ensures n <= 0 ==> n as real / Scale(fractional) <= 0.0
    ensures n == 0 ==> n as real / Scale(fractional) == 0.0
  {
  }

  lemma RoundUpSharesCovers(raw: real, fractional: bool)
    requires raw > 0.0
    ensures var r := RoundUpShares(raw, fractional); raw <= r < raw + Unit(fractional) && r >= Unit(fractional)
  {
    assert Ceiling(raw * Scale(fractional)) >= 1;
  }

  lemma RoundHalfEvenFixes(x: real)
    ensures RoundHalfEven(x) as real == x <==> x.Floor as real == x
  {
  }

  /** Rounding to cents does not know the sign. */
  lemma RoundCentsOdd(x: real)
    ensures RoundCents(-x) == -RoundCents(x) && (x >= 0.0 ==> RoundCents(x) >= 0.0)
  {
    assert (-x) * 100.0 == -(x * 100.0);
    RoundHalfEvenOdd(x * 100.0);
  }

  lemma RoundHalfEvenOdd(x: real)
    ensures RoundHalfEven(-x) == -RoundHalfEven(x) && (x >= 0.0 ==> RoundHalfEven(x) >= 0)
  {
    if x.Floor as real == x {
      assert (-x).Floor == -x.Floor;
    } else {
      assert (-x).Floor == -x.Floor - 1;
    }
  }

  // More than half a step above the grid, or half a step above an odd one.
  predicate RoundsUp(x: real) {
    var cents := x * 100.0;
    var above := cents - cents.Floor as real;
    above > 0.5 || (above == 0.5 && cents.Floor % 2 == 1)
  }

  lemma RoundCentsUp(x: real)
    ensures RoundCents(x) > x <==> RoundsUp(x)
  {
    var n := RoundHalfEven(x * 100.0);
    assert RoundCents(x) * 100.0 == n as real;
    assert RoundCents(x) > x <==> n as real > x * 100.0;
  }

  lemma RoundedToNothing(x: real)
    requires Abs(RoundCents(x)) <= SHARE_EPSILON
    ensures RoundCents(x) == 0.0
  {
    var n := RoundHalfEven(x * 100.0);
    assert RoundCents(x) * 100.0 == n as real;
  }

  lemma FloorOfInt(n: int)
    ensures (n as real).Floor == n
  {
  }

  /** Rounding to cents changes nothing exactly when the amount is already on the cent grid. */
  lemma RoundCentsFixes(x: real)
    ensures RoundCents(x) == x <==> OnGrid(x, true)
    ensures OnGrid(RoundCents(x), true)
  {
    RoundHalfEvenFixes(x * 100.0);
    var n := RoundHalfEven(x * 100.0);
    assert RoundCents(x) * 100.0 == n as real;
    FloorOfInt(n);
  }

  lemma GridCloses(x: real, y: real, fractional: bool)
    requires OnGrid(x, fractional) && OnGrid(y, fractional)
    ensures OnGrid(x - y, fractional) && OnGrid(-x, fractional)
  {
    Integral(x * Scale(fractional), y * Scale(fractional));
    assert (x - y) * Scale(fractional) == x * Scale(fractional) - y * Scale(fractional);
    assert (-x) * Scale(fractional) == -(x * Scale(fractional));
  }

  lemma GridNegated(x: real, fractional: bool)
    ensures OnGrid(-x, fractional) <==> OnGrid(x, fractional)
  {
    if OnGrid(x, fractional) { GridCloses(x, x, fractional); }
    if OnGrid(-x, fractional) { GridCloses(-x, -x, fractional); }
  }

  lemma WholeIsOnCents(x: real)
    requires OnGrid(x, false)
    ensures OnGrid(x, true)
  {
    assert x * 1.0 == x;
    FloorOfInt(100 * x.Floor);
    assert x * 100.0 == (100 * x.Floor) as real;
  }

  lemma GridAdds(x: real, y: real, fractional: bool)
    requires OnGrid(x, fractional) && OnGrid(y, fractional)
    ensures OnGrid(x + y, fractional)
  {
    GridNegated(y, fractional);
    GridCloses(x, -y, fractional);
    assert x - -y == x + y;
  }

  /** Whatever is rounded to shares, down or up, is on the cent grid. */
  lemma SharesOnCents(raw: real, fractional: bool)
    ensures OnGrid(RoundShares(raw, fractional), true) && OnGrid(RoundUpShares(raw, fractional), true)
  {
    WholeSteps(Truncate(raw * Scale(fractional)), fractional);
    WholeSteps(Ceiling(raw * Scale(fractional)), fractional);
  }

  lemma WholeSteps(n: int, fractional: bool)
    ensures OnGrid(n as real / Scale(fractional), true)
  {
    assert n as real / Scale(fractional) * Scale(fractional) == n as real;
    FloorOfInt(n);
    if !fractional {
      assert n as real / 1.0 == n as real;
      WholeIsOnCents(n as real);
    }
  }

  lemma Integral(a: real, b: real)
    requires a.Floor as real == a && b.Floor as real == b
    ensures (a - b).Floor as real == a - b && (-a).Floor as real == -a
  {
    IntegralDifference(a.Floor, b.Floor);
    IntegralDifference(0, a.Floor);
  }

  lemma IntegralDifference(m: int, n: int)
    ensures (m as real - n as real).Floor == m - n
  {
    assert m as real - n as real == (m - n) as real;
  }
}
