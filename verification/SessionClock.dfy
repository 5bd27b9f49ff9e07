/** Trading sessions on one local minute clock: which bars can be complete, and how far back a count
    of bars reaches. */
module SessionClock {
  import opened Cron

  const SESSION_OPEN := 570
  const SESSION_CLOSE := 960
  const SESSION_MINUTES := 390
  const DAILY_INTERVAL_MINUTES := 1440

  function Day(t: Moment): int { t / MINUTES_A_DAY }
  function MinuteOf(t: Moment): int { t % MINUTES_A_DAY }

  // Sunday is 0 and Saturday 6.
  predicate IsWeekday(day: int) { 1 <= Weekday(day) <= 5 }

  function CloseOf(day: int): Moment { day * MINUTES_A_DAY + SESSION_CLOSE }
  function OpenOf(day: int): Moment { day * MINUTES_A_DAY + SESSION_OPEN }

  predicate InSession(t: Moment) { IsWeekday(Day(t)) && SESSION_OPEN <= MinuteOf(t) <= SESSION_CLOSE }

  // The latest close of a weekday at or before a moment.
  ghost predicate IsLastClose(t: Moment, c: Moment) {
    exists d :: c == CloseOf(d) && IsWeekday(d) && c <= t && forall e :: IsWeekday(e) && CloseOf(e) <= t ==> e <= d
  }

  lemma ClosedBy(t: Moment, last: int)
    requires last == if t >= CloseOf(Day(t)) then Day(t) else Day(t) - 1
    ensures CloseOf(last) <= t && forall e :: CloseOf(e) <= t ==> e <= last
  {
  }

  lemma DayBefore(day: int)
    requires !IsWeekday(day)
    ensures Weekday(day) == 0 || Weekday(day) == 6
    ensures Weekday(day - 1) == if Weekday(day) == 0 then 6 else 5
  {
  }

  method LastSessionClose(t: Moment) returns (close: Moment)
    ensures IsLastClose(t, close)
  {
    var day := if t >= CloseOf(Day(t)) then Day(t) else Day(t) - 1;
    ghost var first := day;
    ClosedBy(t, first);
    while !IsWeekday(day)
      invariant day <= first
      invariant forall e :: day < e <= first ==> !IsWeekday(e)
      decreases if Weekday(day) == 0 then 2 else if Weekday(day) == 6 then 1 else 0
    {
      DayBefore(day);
      day := day - 1;
    }
    close := CloseOf(day);
  }

  // The end of the newest bar that can be complete.
  ghost predicate IsFrontier(interval: int, t: Moment, f: Moment) {
    if interval >= DAILY_INTERVAL_MINUTES || !InSession(t) then IsLastClose(t, f)
    else
      var grid := if interval > 1 then interval else 1;
      f == OpenOf(Day(t)) + (MinuteOf(t) - SESSION_OPEN) / grid * grid
  }

  method LastCompleteBarEnd(interval: int, now: Moment) returns (frontier: Moment)
    ensures IsFrontier(interval, now, frontier)
  {
    if interval >= DAILY_INTERVAL_MINUTES || !InSession(now) {
      frontier := LastSessionClose(now);
      return;
    }
    var grid := if interval > 1 then interval else 1;
    var elapsed := MinuteOf(now) - SESSION_OPEN;
    WholeBars(elapsed, grid);
    var completed := if elapsed / grid * grid > 0 then elapsed / grid * grid else 0;
    frontier := OpenOf(Day(now)) + completed;
  }

  lemma WholeBars(elapsed: int, grid: int)
    requires elapsed >= 0 && grid >= 1
    ensures 0 <= elapsed / grid * grid <= elapsed
  {
    assert elapsed == elapsed / grid * grid + elapsed % grid;
    NotNegativeQuotient(elapsed, grid);
  }

  lemma NotNegativeQuotient(elapsed: int, grid: int)
    requires elapsed >= 0 && grid >= 1
    ensures elapsed / grid * grid >= 0
  {
    assert elapsed / grid >= 0;
    Product(elapsed / grid, grid);
  }

  lemma Product(a: int, b: int)
    requires a >= 0 && b >= 0
    ensures a * b >= 0
  {
  }

  lemma QuotientAtLeast(n: int, q: int, d: int)
    requires d >= 1 && n >= q * d
    ensures n / d >= q
  {
    assert (q - n / d) * d == q * d - n / d * d;
    if n / d < q {
      Product(q - n / d - 1, d);
    }
  }

  lemma MoreBars(e1: int, e2: int, grid: int)
    requires 0 <= e1 <= e2 && grid >= 1
    ensures e1 / grid * grid <= e2 / grid * grid
  {
    WholeBars(e1, grid);
    QuotientAtLeast(e2, e1 / grid, grid);
    Product(e2 / grid - e1 / grid, grid);
    assert (e2 / grid - e1 / grid) * grid == e2 / grid * grid - e1 / grid * grid;
  }

  lemma LastCloseMonotone(earlier: Moment, later: Moment, c1: Moment, c2: Moment)
    requires earlier <= later && IsLastClose(earlier, c1) && IsLastClose(later, c2)
    ensures c1 <= c2 && (Day(earlier) < Day(later) && IsWeekday(Day(later)) ==> c1 < OpenOf(Day(later)))
  {
  }

  /** The frontier is never in the future and never goes back while the clock does not. */
  lemma FrontierMonotone(interval: int, earlier: Moment, later: Moment, f1: Moment, f2: Moment)
    requires earlier <= later && IsFrontier(interval, earlier, f1) && IsFrontier(interval, later, f2)
    ensures f1 <= f2 <= later
  {
    var grid := if interval > 1 then interval else 1;
    if interval >= DAILY_INTERVAL_MINUTES || (!InSession(earlier) && !InSession(later)) {
      LastCloseMonotone(earlier, later, f1, f2);
    } else {
      if InSession(later) { WholeBars(MinuteOf(later) - SESSION_OPEN, grid); }
      if InSession(earlier) { WholeBars(MinuteOf(earlier) - SESSION_OPEN, grid); }
      if InSession(earlier) && InSession(later) && Day(earlier) == Day(later) {
        MoreBars(MinuteOf(earlier) - SESSION_OPEN, MinuteOf(later) - SESSION_OPEN, grid);
      } else if InSession(earlier) && !InSession(later) {
        ClosedLater(earlier, later, f2);
      }
    }
  }

  lemma AfterHours(earlier: Moment, later: Moment)
    requires earlier <= later && InSession(earlier) && !InSession(later)
    ensures CloseOf(Day(earlier)) <= later
  {
    assert earlier == Day(earlier) * MINUTES_A_DAY + MinuteOf(earlier);
    assert later == Day(later) * MINUTES_A_DAY + MinuteOf(later);
    if Day(earlier) == Day(later) {
      assert MinuteOf(later) > SESSION_CLOSE;
    } else {
      assert Day(later) >= Day(earlier) + 1;
    }
  }

  // A session closes at four in the afternoon of a weekday, the days being counted from a Thursday on day zero.
  ghost predicate Closes(c: Moment) {
    exists week: int, weekday: int {:trigger CloseAt(week, weekday)} :: 1 <= weekday <= 5 && c == CloseAt(week, weekday)
  }

  function CloseAt(week: int, weekday: int): Moment { (7 * week + weekday - 4) * 1440 + 960 }

  lemma ClosesOnWeekdays(d: int)
    ensures Closes(CloseOf(d)) <==> IsWeekday(d)
  {
    var week, weekday := (d + 4) / 7, (d + 4) % 7;
    assert CloseAt(week, weekday) == CloseOf(d);
    if w: int, n: int :| 1 <= n <= 5 && CloseOf(d) == CloseAt(w, n) {
      assert d == 7 * w + n - 4;
    }
  }

  /** The last close is the greatest at or before a moment. */
  lemma LastCloseIsGreatest(t: Moment, c: Moment)
    ensures IsLastClose(t, c) <==> Closes(c) && c <= t && forall e :: Closes(e) && e <= t ==> e <= c
  {
    forall e | Closes(e) ensures e == CloseOf(Day(e)) && IsWeekday(Day(e)) {
      var week: int, weekday: int :| 1 <= weekday <= 5 && e == CloseAt(week, weekday);
      assert Day(e) == 7 * week + weekday - 4;
      ClosesOnWeekdays(Day(e));
    }
    forall d | IsWeekday(d) ensures Closes(CloseOf(d)) { ClosesOnWeekdays(d); }
    if IsLastClose(t, c) {
      var d :| c == CloseOf(d) && IsWeekday(d) && c <= t && forall e :: IsWeekday(e) && CloseOf(e) <= t ==> e <= d;
      forall e | Closes(e) && e <= t ensures e <= c { assert CloseOf(Day(e)) <= t; }
    }
    if Closes(c) && c <= t && forall e :: Closes(e) && e <= t ==> e <= c {
      forall e | IsWeekday(e) && CloseOf(e) <= t ensures e <= Day(c) { assert Closes(CloseOf(e)); }
    }
  }

  /** Between half past nine and four on a weekday, the frontier of bars shorter than a day is the last point of their
      grid, laid from the open, at or before the moment; at any other time, and for daily bars, the last close. */
  lemma FrontierIsTheLastGridPoint(interval: int, week: int, weekday: int, minute: int, f: Moment)
    requires 0 <= weekday < 7 && 0 <= minute < 1440
    ensures var day := 7 * week + weekday - 4; var now := day * 1440 + minute;
            var grid := if interval > 1 then interval else 1;
            IsFrontier(interval, now, f)
            <==> if 1 <= weekday <= 5 && 570 <= minute <= 960 && interval < 1440
                 then f <= now < f + grid && f >= day * 1440 + 570 && (f - day * 1440 - 570) % grid == 0
                 else IsLastClose(now, f)
  {
    var day := 7 * week + weekday - 4;
    var grid := if interval > 1 then interval else 1;
    assert Day(day * 1440 + minute) == day && MinuteOf(day * 1440 + minute) == minute;
    assert Weekday(day) == weekday;
    if 570 <= minute <= 960 { LastMultiple(minute - 570, grid, f - day * 1440 - 570); }
  }

  lemma LastMultiple(elapsed: int, grid: int, whole: int)
    requires elapsed >= 0 && grid >= 1
    ensures whole == elapsed / grid * grid <==> whole <= elapsed < whole + grid && whole >= 0 && whole % grid == 0
  {
    WholeBars(elapsed, grid);
    assert elapsed == elapsed / grid * grid + elapsed % grid;
    WholeIsMultiple(elapsed / grid, grid);
    if whole <= elapsed < whole + grid && whole % grid == 0 {
      var n := whole / grid;
      assert whole == n * grid + whole % grid;
      QuotientAtLeast(elapsed, n, grid);
      assert (elapsed / grid - n - 1) * grid == elapsed / grid * grid - n * grid - grid;
      if elapsed / grid > n { Product(elapsed / grid - n - 1, grid); }
    }
  }

  lemma WholeIsMultiple(n: int, grid: int)
    requires grid >= 1
    ensures n * grid % grid == 0
  {
    MultipleOf(n, grid, n * grid % grid, n * grid / grid);
  }

  lemma MultipleOf(n: int, grid: int, rest: int, quotient: int)
    requires grid >= 1 && 0 <= rest < grid && n * grid == quotient * grid + rest
    ensures rest == 0
  {
    assert (n - quotient) * grid == rest && (n - quotient - 1) * grid == rest - grid;
    if n - quotient >= 1 {
      Product(n - quotient - 1, grid);
    } else if n - quotient <= -1 {
      Product(quotient - n, grid);
    }
  }

  // Once a session is over, its close is behind the clock.
  lemma ClosedLater(earlier: Moment, later: Moment, c: Moment)
    requires earlier <= later && InSession(earlier) && !InSession(later) && IsLastClose(later, c)
    ensures CloseOf(Day(earlier)) <= c
  {
    AfterHours(earlier, later);
  }

  // -- How far back a count of bars reaches -----------------------------------------------------

  // The least whole number of times `d` covers `n`.
  function CeilDiv(n: int, d: int): int
    requires d > 0
  {
    -(-n / d)
  }

  function SessionsFor(barCount: int, interval: int): int {
    if interval >= DAILY_INTERVAL_MINUTES then barCount
    else if CeilDiv(barCount * interval, SESSION_MINUTES) > 1 then CeilDiv(barCount * interval, SESSION_MINUTES) else 1
  }

  // A weekend in every week, and one session of slack.
  function CalendarDays(sessions: int): int { CeilDiv((sessions + 1) * 7, 5) }

  function WindowStartFor(barCount: int, interval: int, end: Moment): Moment {
    if barCount <= 0 || interval <= 0 then end
    else OpenOf(Day(end) - CalendarDays(SessionsFor(barCount, interval)))
  }

  // Weekdays among the `n` days from `first`.
  function Weekdays(first: int, n: nat): nat {
    if n == 0 then 0 else Weekdays(first, n - 1) + Works(first + n - 1)
  }

  lemma {:induction false} WeekdaysSplit(first: int, m: nat, n: nat)
    ensures Weekdays(first, m + n) == Weekdays(first, m) + Weekdays(first + m, n)
  {
    if n > 0 {
      WeekdaysSplit(first, m, n - 1);
    }
  }

  function Works(day: int): nat { if IsWeekday(day) then 1 else 0 }

  lemma WeekdayAfter(day: int, k: nat)
    ensures Weekday(day + k) == (Weekday(day) + k) % 7
  {
  }

  // Whether a weekday, counted on from Sunday, is worked.
  function WorksOn(weekday: int): nat { if 1 <= weekday % 7 <= 5 then 1 else 0 }

  lemma WorksAfter(day: int, k: nat)
    ensures Works(day + k) == WorksOn(Weekday(day) + k)
  {
    WeekdayAfter(day, k);
  }

  lemma AnyWeek(w: int)
    requires 0 <= w < 7
    ensures WorksOn(w) + WorksOn(w + 1) + WorksOn(w + 2) + WorksOn(w + 3) + WorksOn(w + 4) + WorksOn(w + 5)
            + WorksOn(w + 6) == 5
  {
  }

  lemma SevenInARow(first: int)
    ensures Works(first) + Works(first + 1) + Works(first + 2) + Works(first + 3) + Works(first + 4)
            + Works(first + 5) + Works(first + 6) == 5
  {
    WorksAfter(first, 0);
    WorksAfter(first, 1);
    WorksAfter(first, 2);
    WorksAfter(first, 3);
    WorksAfter(first, 4);
    WorksAfter(first, 5);
    WorksAfter(first, 6);
    AnyWeek(Weekday(first));
  }

  lemma Unrolled(first: int)
    ensures Weekdays(first, 2) == Works(first) + Works(first + 1)
    ensures Weekdays(first, 3) == Weekdays(first, 2) + Works(first + 2)
    ensures Weekdays(first, 5) == Weekdays(first, 3) + Works(first + 3) + Works(first + 4)
    ensures Weekdays(first, 6) == Weekdays(first, 5) + Works(first + 5)
    ensures Weekdays(first, 7) == Weekdays(first, 6) + Works(first + 6)
  {
    assert Weekdays(first, 0) == 0 && Weekdays(first, 1) == Works(first);
    assert Weekdays(first, 4) == Weekdays(first, 3) + Works(first + 3);
  }

  lemma OneWeek(first: int)
    ensures Weekdays(first, 7) == 5
  {
    Unrolled(first);
    SevenInARow(first);
  }

  lemma PartOfAWeek(first: int, n: nat)
    requires n < 7
    ensures Weekdays(first, n) >= n - 2
  {
    WeekdaysSplit(first, n, 7 - n);
    OneWeek(first);
    AtMostAll(first + n, 7 - n);
  }

  lemma {:induction false} AtMostAll(first: int, n: nat)
    ensures Weekdays(first, n) <= n
  {
    if n > 0 {
      AtMostAll(first, n - 1);
    }
  }

  /** The calendar days asked for hold enough weekdays for the sessions, wherever in the week they start. */
  lemma {:induction false} EnoughWeekdays(first: int, sessions: nat)
    ensures CalendarDays(sessions) >= 0 && Weekdays(first, CalendarDays(sessions)) >= sessions
    decreases sessions
  {
    var c := CalendarDays(sessions);
    if sessions >= 5 {
      assert CalendarDays(sessions - 5) == c - 7;
      EnoughWeekdays(first + 7, sessions - 5);
      WeekdaysSplit(first, 7, c - 7);
      OneWeek(first);
    } else if sessions == 4 {
      OneWeek(first);
    } else {
      PartOfAWeek(first, c);
    }
  }

  lemma CeilDivCovers(n: int, d: int)
    requires d > 0
    ensures CeilDiv(n, d) * d >= n
  {
  }

  lemma SessionsHoldTheBars(barCount: int, interval: int)
    requires barCount > 0 && interval > 0
    ensures var sessions := SessionsFor(barCount, interval);
            && sessions >= 1
            && (interval < DAILY_INTERVAL_MINUTES ==> sessions * 390 >= barCount * interval)
            && (interval >= DAILY_INTERVAL_MINUTES ==> sessions == barCount)
            && (interval < DAILY_INTERVAL_MINUTES && sessions > 1 ==>
                  (sessions - 1) * 390 < barCount * interval)
  {
    if interval < DAILY_INTERVAL_MINUTES {
      Product(barCount - 1, interval);
      assert (barCount - 1) * interval == barCount * interval - interval;
      CeilDivCovers(barCount * interval, SESSION_MINUTES);
    }
  }

  /** The calendar days are seven for every five sessions and one more, rounded up to whole days. */
  lemma CalendarDaysExactly(sessions: int)
    ensures 7 * (sessions + 1) <= 5 * CalendarDays(sessions) < 7 * (sessions + 1) + 5
  {
  }

  lemma NothingAskedFor(barCount: int, interval: int, end: Moment)
    requires barCount <= 0 || interval <= 0
    ensures WindowStartFor(barCount, interval, end) == end
  {
  }

  lemma DayOfOpen(day: int)
    ensures Day(OpenOf(day)) == day
  {
  }

  lemma SomeDays(sessions: nat)
    ensures CalendarDays(sessions) >= 1
  {
  }

  /** A window measured back from a moment holds, in full, at least as many weekday sessions as the bars
      asked for take up; and those sessions are long enough for the bars. */
  lemma WindowHoldsTheSessions(barCount: int, interval: int, end: Moment)
    requires barCount > 0 && interval > 0
    ensures var start, sessions := WindowStartFor(barCount, interval, end), SessionsFor(barCount, interval);
            && start == OpenOf(Day(start)) && Day(start) < Day(end)
            && Weekdays(Day(start), Day(end) - Day(start)) >= sessions >= 1
            && (interval < DAILY_INTERVAL_MINUTES ==> sessions * 390 >= barCount * interval)
            && (interval >= DAILY_INTERVAL_MINUTES ==> sessions == barCount)
  {
    SessionsHoldTheBars(barCount, interval);
    var sessions := SessionsFor(barCount, interval);
    DayOfOpen(Day(end) - CalendarDays(sessions));
    SomeDays(sessions);
    EnoughWeekdays(Day(end) - CalendarDays(sessions), sessions);
  }

  // The days on which the calendar days for so many sessions hold no weekday to spare.
  predicate Tight(endDay: int, sessions: nat) {
    (sessions % 5 == 0 && Weekday(endDay) == 1) || (sessions % 5 == 1 && 1 <= Weekday(endDay) <= 2)
  }

  lemma WeekdaysBefore(first: int, n: nat, endDay: int)
    requires first + n == endDay
    ensures Weekday(first) == (Weekday(endDay) - n) % 7
  {
  }

  lemma SpareInAWeek(endDay: int, sessions: nat)
    requires sessions < 5
    ensures Weekdays(endDay - CalendarDays(sessions), CalendarDays(sessions)) > sessions <==> !Tight(endDay, sessions)
  {
    var c := CalendarDays(sessions);
    var first := endDay - c;
    assert c == [2, 3, 5, 6, 7][sessions];
    Unrolled(first);
    WeekdaysBefore(first, c, endDay);
    WeekdayAfter(first, 1);
    WeekdayAfter(first, 2);
    WeekdayAfter(first, 3);
    WeekdayAfter(first, 4);
    WeekdayAfter(first, 5);
    SevenInARow(first);
  }

  /** The extra session is slack, a weekday more than the sessions need, except back from a Monday for a
      multiple of five sessions, and back from a Monday or a Tuesday for one more than that. */
  lemma {:induction false} SlackExactly(endDay: int, sessions: nat)
    ensures Weekdays(endDay - CalendarDays(sessions), CalendarDays(sessions)) > sessions <==> !Tight(endDay, sessions)
    decreases sessions
  {
    if sessions < 5 {
      SpareInAWeek(endDay, sessions);
    } else {
      FiveMore(endDay, sessions);
      SlackExactly(endDay, sessions - 5);
      WeekEarlier(endDay, CalendarDays(sessions - 5));
    }
  }

  lemma FiveMore(endDay: int, sessions: nat)
    requires sessions >= 5
    ensures CalendarDays(sessions) == CalendarDays(sessions - 5) + 7 && CalendarDays(sessions - 5) >= 0
    ensures Tight(endDay, sessions) <==> Tight(endDay, sessions - 5)
  {
  }

  lemma WeekEarlier(endDay: int, days: nat)
    ensures Weekdays(endDay - (days + 7), days + 7) == Weekdays(endDay - days, days) + 5
  {
    WeekdaysSplit(endDay - (days + 7), 7, days);
    OneWeek(endDay - (days + 7));
  }

  /** A window has a session to spare for a holiday exactly when it is not tight. */
  lemma WindowSlackExactly(barCount: int, interval: int, end: Moment)
    requires barCount > 0 && interval > 0
    ensures var start, sessions := WindowStartFor(barCount, interval, end), SessionsFor(barCount, interval);
            && sessions >= 1 && Day(start) < Day(end)
            && (Weekdays(Day(start), Day(end) - Day(start)) > sessions <==> !Tight(Day(end), sessions))
  {
    WindowHoldsTheSessions(barCount, interval, end);
    SlackExactly(Day(end), SessionsFor(barCount, interval));
  }

  /** So one holiday can leave a window a session short: five daily bars back from a Monday, and a single one
      back from a Monday or a Tuesday. */
  lemma SlackCanBeUsedUp(end: Moment, barCount: int)
    requires if barCount == 5 then Weekday(Day(end)) == 1 else barCount == 1 && 1 <= Weekday(Day(end)) <= 2
    ensures var start := WindowStartFor(barCount, DAILY_INTERVAL_MINUTES, end);
            Day(start) < Day(end) && Weekdays(Day(start), Day(end) - Day(start)) == barCount
  {
    WindowHoldsTheSessions(barCount, DAILY_INTERVAL_MINUTES, end);
    WindowSlackExactly(barCount, DAILY_INTERVAL_MINUTES, end);
  }
}
