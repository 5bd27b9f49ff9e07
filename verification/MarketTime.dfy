/** Looking up closes, and the returns between them, on an axis of minutes the market was open. */
module MarketTime {
  import opened Wrappers
  import opened Integers
  import opened Sizing

  const REFERENCE_INTERVAL_MINUTES := 15
  const TRADING_MINUTES_PER_DAY := 390

  // A bar, stamped in minutes; the resolution is missing where the store did not record it.
  datatype Bar = Bar(stamp: int, close: real, interval: Option<int>)

  // The market time one bar stands for: its own resolution where any is recorded, the frame's otherwise.
  function StepOf(bar: Bar, recorded: bool, frameInterval: int): int {
    Least(if recorded then bar.interval.GetOr(REFERENCE_INTERVAL_MINUTES) else frameInterval, TRADING_MINUTES_PER_DAY)
  }

  function GapTo(prev: Bar, bar: Bar, recorded: bool, frameInterval: int): int {
    Greatest(Least(bar.stamp - prev.stamp, StepOf(bar, recorded, frameInterval)), 0)
  }

  predicate Recorded(bars: seq<Bar>) { exists i :: 0 <= i < |bars| && bars[i].interval.Some? }

  function Axis(bars: seq<Bar>, recorded: bool, frameInterval: int): (axis: seq<int>)
    ensures |axis| == |bars|
  {
    if |bars| <= 1 then seq(|bars|, i => 0)
    else
      var axis := Axis(bars[..|bars| - 1], recorded, frameInterval);
      axis + [axis[|axis| - 1] + GapTo(bars[|bars| - 2], bars[|bars| - 1], recorded, frameInterval)]
  }

  method MarketMinutesAxis(bars: seq<Bar>, frameInterval: int) returns (axis: seq<int>)
    ensures axis == Axis(bars, Recorded(bars), frameInterval)
  {
    var recorded := exists i :: 0 <= i < |bars| && bars[i].interval.Some?;
    if bars == [] {
      return [];
    }
    axis := [0];
    for i := 1 to |bars|
      invariant |axis| == i && axis == Axis(bars[..i], recorded, frameInterval)
    {
      assert bars[..i + 1][..i] == bars[..i];
      axis := axis + [axis[i - 1] + GapTo(bars[i - 1], bars[i], recorded, frameInterval)];
    }
    assert bars[..|bars|] == bars;
  }

  ghost predicate NonDecreasing(axis: seq<int>) { forall i, j :: 0 <= i <= j < |axis| ==> axis[i] <= axis[j] }

  lemma GapBounds(prev: Bar, bar: Bar, recorded: bool, frameInterval: int)
    ensures 0 <= GapTo(prev, bar, recorded, frameInterval) <= TRADING_MINUTES_PER_DAY
    ensures GapTo(prev, bar, recorded, frameInterval) <= Greatest(StepOf(bar, recorded, frameInterval), 0)
    ensures prev.stamp <= bar.stamp && StepOf(bar, recorded, frameInterval) >= 0 ==>
              GapTo(prev, bar, recorded, frameInterval)
                == Least(bar.stamp - prev.stamp, StepOf(bar, recorded, frameInterval))
  {
  }

  /** One bar advances market time by the time that went by, but by no more than the bar stands for. */
  lemma {:induction false} BarAdvances(bars: seq<Bar>, recorded: bool, frameInterval: int, i: nat)
    requires 0 < i < |bars|
    ensures var axis := Axis(bars, recorded, frameInterval);
            && axis[i] == axis[i - 1] + GapTo(bars[i - 1], bars[i], recorded, frameInterval)
            && 0 <= axis[i] - axis[i - 1] <= TRADING_MINUTES_PER_DAY
            && axis[i] - axis[i - 1] <= Greatest(StepOf(bars[i], recorded, frameInterval), 0)
  {
    GapBounds(bars[i - 1], bars[i], recorded, frameInterval);
    if i < |bars| - 1 {
      BarAdvances(bars[..|bars| - 1], recorded, frameInterval, i);
    }
  }

  // What a bar claims to stand for, in minutes.
  ghost predicate Claims(bars: seq<Bar>, i: nat, frameInterval: int, claim: int)
    requires i < |bars|
  {
    if bars[i].interval.Some? then bars[i].interval == Some(claim)
    else if exists j :: 0 <= j < |bars| && bars[j].interval.Some? then claim == 15
    else claim == frameInterval
  }

  /** A bar advances the axis by the least of the minutes since the one before, the minutes it claims to stand for and
      a session of 390: where nothing is recorded it claims the frame's interval, and where others are, 15. */
  lemma AdvancesByTheLeast(bars: seq<Bar>, frameInterval: int, i: nat, claim: int)
    requires 0 < i < |bars| && bars[i - 1].stamp <= bars[i].stamp && Claims(bars, i, frameInterval, claim) && claim >= 0
    ensures var axis, elapsed := Axis(bars, Recorded(bars), frameInterval), bars[i].stamp - bars[i - 1].stamp;
            var d := axis[i] - axis[i - 1];
            d in {elapsed, claim, 390} && d <= elapsed && d <= claim && d <= 390
  {
    BarAdvances(bars, Recorded(bars), frameInterval, i);
  }

  /** Market time starts at zero and never goes back. */
  lemma {:induction false} AxisNeverGoesBack(bars: seq<Bar>, recorded: bool, frameInterval: int)
    ensures var axis := Axis(bars, recorded, frameInterval); NonDecreasing(axis) && (bars != [] ==> axis[0] == 0)
  {
    if |bars| > 1 {
      AxisNeverGoesBack(bars[..|bars| - 1], recorded, frameInterval);
      GapBounds(bars[|bars| - 2], bars[|bars| - 1], recorded, frameInterval);
    }
  }

  // -- Looking up a close ------------------------------------------------------------------------

  // The linear scan: how many bars, from the first, lie at or before a target.
  function UpTo(axis: seq<int>, target: int): (n: nat)
    ensures n <= |axis|
  {
    if axis == [] then 0
    else if axis[|axis| - 1] <= target then |axis|
    else UpTo(axis[..|axis| - 1], target)
  }

  /** On an axis that never goes back the scan counts exactly the bars that are not past the target, which is where
      the target would be inserted. */
  lemma {:induction false} UpToIsLast(axis: seq<int>, target: int, n: nat)
    requires NonDecreasing(axis) && n <= |axis|
    ensures n == UpTo(axis, target)
            <==> (forall i :: 0 <= i < n ==> axis[i] <= target) && (forall i :: n <= i < |axis| ==> axis[i] > target)
  {
    if axis != [] {
      if axis[|axis| - 1] > target && n < |axis| {
        UpToIsLast(axis[..|axis| - 1], target, n);
      }
    }
  }

  method SearchSortedRight(axis: seq<int>, target: int) returns (n: nat)
    requires NonDecreasing(axis)
    ensures n == UpTo(axis, target)
  {
    var low, high := 0, |axis|;
    while low < high
      invariant 0 <= low <= high <= |axis|
      invariant forall i :: 0 <= i < low ==> axis[i] <= target
      invariant forall i :: high <= i < |axis| ==> axis[i] > target
    {
      var mid := (low + high) / 2;
      if axis[mid] <= target {
        low := mid + 1;
      } else {
        high := mid;
      }
    }
    n := low;
    UpToIsLast(axis, target, n);
  }

  // The close so many minutes of the axis ago; the oldest where the data does not go back that far.
  function CloseAt(bars: seq<Bar>, axis: seq<int>, offset: int): real
    requires |axis| == |bars|
  {
    if bars == [] then 0.0
    else
      var n := UpTo(axis, axis[|axis| - 1] - offset);
      if n == 0 then bars[0].close else bars[n - 1].close
  }

  method ClosesAtOffsets(bars: seq<Bar>, axis: seq<int>, offsets: seq<int>) returns (closes: seq<real>)
    requires |axis| == |bars| && NonDecreasing(axis)
    ensures |closes| == |offsets| && forall i :: 0 <= i < |offsets| ==> closes[i] == CloseAt(bars, axis, offsets[i])
  {
    closes := [];
    for i := 0 to |offsets|
      invariant |closes| == i && forall j :: 0 <= j < i ==> closes[j] == CloseAt(bars, axis, offsets[j])
    {
      var close := 0.0;
      if bars != [] {
        var n := SearchSortedRight(axis, axis[|axis| - 1] - offsets[i]);
        close := if n == 0 then bars[0].close else bars[n - 1].close;
      }
      closes := closes + [close];
    }
  }

  // -- Returns -----------------------------------------------------------------------------------

  // The data reaches the whole of a window.
  predicate Reaches(axis: seq<int>, minutes: int, offset: int) {
    axis != [] && minutes > 0 && axis[|axis| - 1] >= minutes + offset
  }

  function Change(start: real, end: real): real { if start > 0.0 then end / start - 1.0 else 0.0 }

  function ReturnOver(bars: seq<Bar>, axis: seq<int>, minutes: int, offset: int): real
    requires |axis| == |bars|
  {
    if !Reaches(axis, minutes, offset) then 0.0
    else Change(CloseAt(bars, axis, minutes + offset), CloseAt(bars, axis, offset))
  }

  // The last of the bars that are not past a point of the axis, and none where all are past it.
  ghost predicate LastAt(axis: seq<int>, target: int, i: int) {
    && -1 <= i < |axis|
    && (forall k :: 0 <= k <= i ==> axis[k] <= target) && (forall k :: i < k < |axis| ==> axis[k] > target)
  }

  lemma CloseOfLast(bars: seq<Bar>, axis: seq<int>, offset: int, i: int)
    requires |axis| == |bars| > 0 && NonDecreasing(axis) && LastAt(axis, axis[|axis| - 1] - offset, i)
    ensures CloseAt(bars, axis, offset) == bars[if i < 0 then 0 else i].close
  {
    UpToIsLast(axis, axis[|axis| - 1] - offset, i + 1);
  }

  /** The return over a window is measured between the last closes at or before its two ends, the later over the
      earlier, where the data reaches back to its start; it is zero where it does not, or the start is worth nothing. */
  lemma ReturnBetweenCloses(bars: seq<Bar>, axis: seq<int>, minutes: int, offset: int, i: int, j: int)
    requires |axis| == |bars| > 0 && NonDecreasing(axis) && minutes > 0
    requires LastAt(axis, axis[|axis| - 1] - minutes - offset, i) && LastAt(axis, axis[|axis| - 1] - offset, j)
    ensures var first, last := bars[if i < 0 then 0 else i].close, bars[if j < 0 then 0 else j].close;
            ReturnOver(bars, axis, minutes, offset)
            == if axis[|axis| - 1] >= minutes + offset && first > 0.0 then last / first - 1.0 else 0.0
  {
    CloseOfLast(bars, axis, minutes + offset, i);
    CloseOfLast(bars, axis, offset, j);
  }

  // How many samples a span takes at one per bar.
  function Points(span: int, step: int): int
    requires step > 0
  {
    Greatest(RoundHalfEven(Greatest(span, step) as real / step as real), 1)
  }

  function OffsetOf(k: int, points: int, step: int): int { step * (points - 1 - k) }

  /** There are as many samples as steps come nearest to the span, the even number where two are as near, and one at
      least. */
  lemma PointsExactly(span: int, step: int)
    requires step > 0
    ensures var points := Points(span, step);
            if span <= step then points == 1
            else points >= 1 && -step <= 2 * (points * step - span) <= step
                 && (2 * (points * step - span) in {step, -step} ==> points % 2 == 0)
  {
    var x := Greatest(span, step) as real / step as real;
    var n := RoundHalfEven(x);
    assert x * step as real == Greatest(span, step) as real;
    NearestWhole(x, step, Greatest(span, step), n);
  }

  lemma NearestWhole(x: real, step: int, span: int, n: int)
    requires step > 0 && span >= step && x * step as real == span as real && n == RoundHalfEven(x)
    ensures n >= 1 && -step <= 2 * (n * step - span) <= step
    ensures 2 * (n * step - span) in {step, -step} ==> n % 2 == 0
    ensures span == step ==> n == 1
  {
    HalfAway(x, n);
    OffBy(x, step, span, n);
    ScaledHalf(n as real - x, step as real);
    AtLeastOne(x, step, span);
  }

  lemma HalfAway(x: real, n: int)
    requires n == RoundHalfEven(x)
    ensures -0.5 <= n as real - x <= 0.5
    ensures n as real - x == 0.5 || n as real - x == -0.5 ==> n % 2 == 0
  {
  }

  lemma OffBy(x: real, step: int, span: int, n: int)
    requires x * step as real == span as real
    ensures Times(n as real - x, step as real) == (n * step - span) as real
  {
    assert (n * step) as real == n as real * step as real;
  }

  lemma ScaledHalf(off: real, step: real)
    requires step > 0.0 && -0.5 <= off <= 0.5
    ensures -step <= 2.0 * Times(off, step) <= step
    ensures 2.0 * Times(off, step) == step ==> off == 0.5
    ensures 2.0 * Times(off, step) == -step ==> off == -0.5
  {
    TimesKeepsOrder(off, 0.5, step);
    TimesKeepsOrder(-0.5, off, step);
    assert Times(0.5, step) == 0.5 * step && Times(-0.5, step) == -0.5 * step;
  }

  lemma AtLeastOne(x: real, step: int, span: int)
    requires step > 0 && span >= step && x * step as real == span as real
    ensures x >= 1.0 && (span == step ==> x == 1.0)
  {
    TimesKeepsOrder(x, 1.0, step as real);
    assert Times(x, step as real) == span as real && Times(1.0, step as real) == step as real;
  }

  /** The samples end at the newest bar, and each is one step later than the one before it. */
  lemma SamplesAreSpaced(points: nat, step: int, k: nat)
    requires k < points
    ensures OffsetOf(points - 1, points, step) == 0
    ensures k + 1 < points ==> OffsetOf(k, points, step) == OffsetOf(k + 1, points, step) + step
  {
    assert step * 0 == 0;
    assert step * (points - 1 - k) == step * (points - 2 - k) + step;
  }

  function Path(bars: seq<Bar>, axis: seq<int>, horizon: int, points: nat, step: int): seq<real>
    requires |axis| == |bars|
  {
    seq(points, k => ReturnOver(bars, axis, horizon, OffsetOf(k, points, step)))
  }

  // Index of the first sample that is not zero, or the length where all are.
  function Leading(values: seq<real>): (n: nat)
    ensures n <= |values| && (forall i :: 0 <= i < n ==> values[i] == 0.0) && (n < |values| ==> values[n] != 0.0)
  {
    if values == [] then 0
    else
      var n := Leading(values[..|values| - 1]);
      if n < |values| - 1 then n else if values[|values| - 1] != 0.0 then |values| - 1 else |values|
  }

  function Filled(values: seq<real>): (filled: seq<real>)
    ensures |filled| == |values|
  {
    var n := Leading(values);
    if n == |values| then values
      else seq(|values|, k requires 0 <= k < |values| => if k < n then values[n] else values[k])
  }

  // Every sample in two batched searches.
  method Samples(bars: seq<Bar>, axis: seq<int>, horizon: int, points: nat, step: int) returns (values: seq<real>)
    requires |axis| == |bars| && NonDecreasing(axis)
    ensures values == Path(bars, axis, horizon, points, step)
  {
    if bars == [] || horizon <= 0 {
      return seq(points, k => 0.0);
    }
    var offsets := seq(points, k => OffsetOf(k, points, step));
    var earlier := seq(points, k requires 0 <= k < points => horizon + offsets[k]);
    var ends := ClosesAtOffsets(bars, axis, offsets);
    var starts := ClosesAtOffsets(bars, axis, earlier);
    var span := axis[|axis| - 1];
    values := seq(points, k requires 0 <= k < points => if span >= earlier[k] then Change(starts[k], ends[k]) else 0.0);
    forall k | 0 <= k < points ensures values[k] == ReturnOver(bars, axis, horizon, OffsetOf(k, points, step)) {
      assert starts[k] == CloseAt(bars, axis, earlier[k]) && ends[k] == CloseAt(bars, axis, offsets[k]);
    }
  }

  // Overwrites the zeroes in front with the first value that is not zero.
  method FillLeading(samples: seq<real>) returns (values: seq<real>)
    ensures values == Filled(samples)
  {
    var first := 0;
    while first < |samples| && samples[first] == 0.0
      invariant 0 <= first <= |samples| && forall i :: 0 <= i < first ==> samples[i] == 0.0
    {
      first := first + 1;
    }
    values := samples;
    if 0 < first < |samples| {
      values := seq(first, k => samples[first]) + samples[first..];
    }
  }

  /** The path is the pointwise returns, one sample per bar, with the leading zeroes filled. */
  method ReturnPath(bars: seq<Bar>, frameInterval: int, horizon: int, span: int) returns (values: seq<real>)
    requires frameInterval > 0
    ensures var axis, step := Axis(bars, Recorded(bars), frameInterval), Least(frameInterval, TRADING_MINUTES_PER_DAY);
            values == Filled(Path(bars, axis, horizon, Points(span, step), step))
  {
    var axis := MarketMinutesAxis(bars, frameInterval);
    AxisNeverGoesBack(bars, Recorded(bars), frameInterval);
    var step := Least(frameInterval, TRADING_MINUTES_PER_DAY);
    var samples := Samples(bars, axis, horizon, Points(span, step), step);
    values := FillLeading(samples);
  }

  // The first sample whose window the data reaches, or the number of samples where it reaches none.
  function FirstReached(axis: seq<int>, horizon: int, points: nat, step: int, from: nat): (n: nat)
    requires from <= points
    ensures from <= n <= points
    ensures forall k :: from <= k < n ==> !Reaches(axis, horizon, OffsetOf(k, points, step))
    ensures n < points ==> Reaches(axis, horizon, OffsetOf(n, points, step))
    decreases points - from
  {
    if from == points || Reaches(axis, horizon, OffsetOf(from, points, step)) then from
    else FirstReached(axis, horizon, points, step, from + 1)
  }

  lemma LaterIsNearer(k: int, m: int, points: int, step: int)
    requires k <= m && step > 0
    ensures OffsetOf(m, points, step) <= OffsetOf(k, points, step)
  {
    assert step * (points - 1 - k) - step * (points - 1 - m) == step * (m - k);
  }

  /** Samples run from the oldest, so the data reaches all of them from the first that it reaches. */
  lemma ReachedFromTheFirst(axis: seq<int>, horizon: int, points: nat, step: int, k: nat)
    requires step > 0 && k < points
    ensures Reaches(axis, horizon, OffsetOf(k, points, step)) <==> FirstReached(axis, horizon, points, step, 0) <= k
  {
    var first := FirstReached(axis, horizon, points, step, 0);
    if first <= k {
      LaterIsNearer(first, k, points, step);
    }
  }

  // What the path is meant to be: the samples the data cannot reach repeat the first one it can.
  function Meant(path: seq<real>, first: nat): seq<real> {
    seq(|path|, k requires 0 <= k < |path| => if k < first < |path| then path[first] else path[k])
  }

  predicate Flat(path: seq<real>) { forall k :: 0 <= k < |path| ==> path[k] == 0.0 }

  /** The path is what it is meant to be exactly when the first sample the data reaches is not flat, or every
      sample is. */
  lemma FilledAsMeantExactly(bars: seq<Bar>, axis: seq<int>, horizon: int, points: nat, step: int)
    requires |axis| == |bars|
    ensures var path, first := Path(bars, axis, horizon, points, step), FirstReached(axis, horizon, points, step, 0);
            Filled(path) == Meant(path, first) <==> Flat(path) || path[first] != 0.0
  {
    var path, first := Path(bars, axis, horizon, points, step), FirstReached(axis, horizon, points, step, 0);
    forall k | 0 <= k < first ensures path[k] == 0.0 {
      assert path[k] == ReturnOver(bars, axis, horizon, OffsetOf(k, points, step));
    }
    MeantExactly(path, first);
  }

  lemma MeantExactly(path: seq<real>, first: nat)
    requires first <= |path| && forall k :: 0 <= k < first ==> path[k] == 0.0
    ensures Filled(path) == Meant(path, first) <==> Flat(path) || (first < |path| && path[first] != 0.0)
  {
    var n := Leading(path);
    if n < |path| && n != first {
      assert Filled(path)[first] == path[n] && Meant(path, first)[first] == path[first];
    }
  }

  // Three bars: flat over the first one, ten percent up over the second.
  const FlatThenUp: seq<Bar> := [Bar(0, 100.0, Some(15)), Bar(15, 100.0, Some(15)), Bar(30, 110.0, Some(15))]

  /** So a flat sample the data does reach can be overwritten like a missing one. */
  lemma FlatSampleIsOverwritten()
    ensures var axis := Axis(FlatThenUp, true, 15);
            && Reaches(axis, 15, 15) && ReturnOver(FlatThenUp, axis, 15, 15) == 0.0
            && Filled(Path(FlatThenUp, axis, 15, 2, 15))[0] == 110.0 / 100.0 - 1.0
  {
    var bars := FlatThenUp;
    assert bars[..2][..1] == [bars[0]];
    assert Axis(bars[..2], true, 15) == [0] + [15];
    var axis := Axis(bars, true, 15);
    assert axis == [0, 15, 30];
    UpToIsLast(axis, 0, 1);
    UpToIsLast(axis, 15, 2);
    UpToIsLast(axis, 30, 3);
    var path := Path(bars, axis, 15, 2, 15);
    assert path[0] == ReturnOver(bars, axis, 15, 15) == 0.0
      && path[1] == ReturnOver(bars, axis, 15, 0) == 110.0 / 100.0 - 1.0;
  }
}
