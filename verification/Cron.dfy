/** Cron schedules: what the five fields allow, and which fire time a moment belongs to. */
module Cron {
  import opened Wrappers

  // Moments are whole minutes since midnight of day zero, which was a Thursday.
  type Moment = int

  const GRACE_MINUTES := 15
  const MINUTES_A_DAY := 1440
  const DAY_ZERO_WEEKDAY := 4

  // The date of a day number; the weekday follows from the number itself, Sunday being 0.
  datatype Civil = Civil(day: int, month: int)

  datatype CronSpec = CronSpec(minutes: set<int>, hours: set<int>,
                               daysOfMonth: set<int>, months: set<int>, daysOfWeek: set<int>)

  function Weekday(dayNumber: int): int { (dayNumber + DAY_ZERO_WEEKDAY) % 7 }

  predicate MatchesDate(spec: CronSpec, dayNumber: int, calendar: int -> Civil) {
    var date := calendar(dayNumber);
    date.day in spec.daysOfMonth && date.month in spec.months && Weekday(dayNumber) in spec.daysOfWeek
  }

  predicate Matches(spec: CronSpec, t: Moment, calendar: int -> Civil) {
    t % 60 in spec.minutes && t / 60 % 24 in spec.hours && MatchesDate(spec, t / MINUTES_A_DAY, calendar)
  }

  // A schedule as the set of its fire times.
  function Fires(spec: CronSpec, calendar: int -> Civil): Moment -> bool { t => Matches(spec, t, calendar) }

  function LastFire(fires: Moment -> bool, now: Moment, back: nat): Option<Moment>
    decreases back
  {
    if fires(now) then Some(now)
    else if back == 0 then None
    else LastFire(fires, now - 1, back - 1)
  }

  function Grace(minutes: int): nat { if minutes > 0 then minutes else 0 }

  method CronFireKey(spec: CronSpec, calendar: int -> Civil, now: Moment, grace: int) returns (key: Option<Moment>)
    ensures key == LastFire(Fires(spec, calendar), now, Grace(grace))
    ensures IsLastFire(Fires(spec, calendar), now, if grace > 0 then grace else 0, key)
  {
    var fires := Fires(spec, calendar);
    LastFireIsGreatest(fires, now, Grace(grace), LastFire(fires, now, Grace(grace)));
    for offset := 0 to Grace(grace) + 1
      invariant LastFire(fires, now, Grace(grace))
                == if offset > Grace(grace) then None else LastFire(fires, now - offset, Grace(grace) - offset)
    {
      if fires(now - offset) {
        return Some(now - offset);
      }
    }
    key := None;
  }

  // The greatest fire time no later than `now` and no more than `back` minutes before it.
  ghost predicate IsLastFire(fires: Moment -> bool, now: Moment, back: nat, key: Option<Moment>) {
    match key
    case Some(k) => now - back <= k <= now && fires(k) && forall t :: k < t <= now ==> !fires(t)
    case None => forall t :: now - back <= t <= now ==> !fires(t)
  }

  /** The backward scan finds the greatest fire time within the grace, and nothing else is that. */
  lemma {:induction false} LastFireIsGreatest(fires: Moment -> bool, now: Moment, back: nat, key: Option<Moment>)
    ensures IsLastFire(fires, now, back, key) <==> key == LastFire(fires, now, back)
    decreases back
  {
    if !fires(now) && back > 0 {
      LastFireIsGreatest(fires, now - 1, back - 1, key);
    }
  }

  /** The fire key never goes back while the clock does not. */
  lemma FireKeyMonotone(fires: Moment -> bool, earlier: Moment, later: Moment, back: nat)
    requires earlier <= later
    ensures var k1, k2 := LastFire(fires, earlier, back), LastFire(fires, later, back);
            k1.Some? && k2.Some? ==> k1.value <= k2.value
  {
    LastFireIsGreatest(fires, earlier, back, LastFire(fires, earlier, back));
    LastFireIsGreatest(fires, later, back, LastFire(fires, later, back));
  }

  /** Every poll after a fire, within its grace and before the next fire, gets that fire. */
  lemma EveryPollInTheWindow(fires: Moment -> bool, fire: Moment, now: Moment, back: nat)
    ensures fires(fire) && fire <= now <= fire + back && (forall t :: fire < t <= now ==> !fires(t))
            <==> LastFire(fires, now, back) == Some(fire)
  {
    LastFireIsGreatest(fires, now, back, Some(fire));
  }

  // -- Reading one field -------------------------------------------------------------------------

  datatype Field = Field(low: int, high: int, weekday: bool)

  const FIELDS :=
    [Field(0, 59, false), Field(0, 23, false), Field(1, 31, false), Field(1, 12, false), Field(0, 6, true)]

  // One comma-separated entry, its numbers already read: a star, a single number or a range, and a step.
  datatype Span = Star | One(value: int) | Range(from: int, to: int)
  datatype Item = Item(span: Span, step: int)

  datatype CronError = BadStep(step: int) | OutOfRange(value: int) | Backwards(from: int, to: int)

  function Bounded(value: int, f: Field): Result<int, CronError> {
    if f.weekday && value == 7 then Ok(0)
    else if f.low <= value <= f.high then Ok(value)
    else Err(OutOfRange(value))
  }

  // First and last value of an entry, before the step.
  function Ends(span: Span, f: Field): Result<(int, int), CronError> {
    match span
    case Star => Ok((f.low, f.high))
    case One(v) =>
      (match Bounded(v, f)
       case Err(e) => Err(e)
       case Ok(a) => Ok((a, a)))
    case Range(v, w) =>
      match Bounded(v, f)
      case Err(e) => Err(e)
      case Ok(a) =>
        match Bounded(w, f)
        case Err(e) => Err(e)
        case Ok(b) => if a > b then Err(Backwards(v, w)) else Ok((a, b))
  }

  method ExpandItem(item: Item, f: Field) returns (r: Result<set<int>, CronError>)
    ensures r.Ok? <==> item.step >= 1 && Ends(item.span, f).Ok?
    ensures r.Ok? ==> forall v :: v in r.value <==> Allows(item, f, v)
    ensures r.Err? ==> r.error == if item.step < 1 then BadStep(item.step) else Ends(item.span, f).error
  {
    if item.step < 1 {
      return Err(BadStep(item.step));
    }
    var ends := Ends(item.span, f);
    if ends.Err? {
      return Err(ends.error);
    }
    var allowed := EveryStep(ends.value.0, ends.value.1, item.step);
    r := Ok(allowed);
  }

  method EveryStep(first: int, last: int, step: int) returns (allowed: set<int>)
    requires step >= 1
    ensures forall v :: v in allowed <==> Hits(first, last, step, v)
  {
    allowed := {};
    var v := first;
    while v <= last
      invariant v >= first && OnStep(first, v, step)
      invariant forall x :: x in allowed <==> x < v && Hits(first, last, step, x)
      decreases last - v + 1
    {
      forall x ensures x < v + step && Hits(first, last, step, x) <==> x == v || (x < v && Hits(first, last, step, x)) {
        NoneBetween(first, v, step);
      }
      NoneBetween(first, v, step);
      allowed, v := allowed + {v}, v + step;
    }
  }

  // Reached from `first` by whole steps.
  predicate OnStep(first: int, v: int, step: int)
    requires step >= 1
    decreases v - first
  {
    v == first || (v >= first + step && OnStep(first, v - step, step))
  }

  predicate Hits(first: int, last: int, step: int, v: int)
    requires step >= 1
  {
    first <= v <= last && OnStep(first, v, step)
  }

  lemma {:induction false} NoneBetween(first: int, v: int, step: int)
    requires step >= 1 && v >= first && OnStep(first, v, step)
    ensures OnStep(first, v + step, step) && forall x :: v < x < v + step ==> !OnStep(first, x, step)
    decreases v - first
  {
    if v != first {
      NoneBetween(first, v - step, step);
      forall x | v < x < v + step ensures !OnStep(first, x, step) {
        assert !OnStep(first, x - step, step);
      }
    }
  }

  // What an entry allows: every step-th value from its first to its last.
  ghost predicate Allows(item: Item, f: Field, v: int) {
    item.step >= 1 && Ends(item.span, f).Ok?
    && var (first, last) := Ends(item.span, f).value; Hits(first, last, item.step, v)
  }

  /** A field allows exactly what one of its entries allows, all of it within the field's own bounds, and is
      refused where any entry is. */
  method ParseField(items: seq<Item>, f: Field) returns (r: Result<set<int>, CronError>)
    ensures r.Ok? <==> forall i :: 0 <= i < |items| ==> items[i].step >= 1 && Ends(items[i].span, f).Ok?
    ensures r.Ok? ==> forall v :: v in r.value <==> exists i :: 0 <= i < |items| && Allows(items[i], f, v)
    ensures r.Ok? && f in FIELDS ==> forall v :: v in r.value ==> f.low <= v <= f.high
  {
    var allowed: set<int> := {};
    for i := 0 to |items|
      invariant forall j :: 0 <= j < i ==> items[j].step >= 1 && Ends(items[j].span, f).Ok?
      invariant forall v :: v in allowed <==> exists j :: 0 <= j < i && Allows(items[j], f, v)
    {
      var more := ExpandItem(items[i], f);
      if more.Err? {
        return more;
      }
      allowed := allowed + more.value;
    }
    r := Ok(allowed);
    if f in FIELDS {
      forall v, i | 0 <= i < |items| && Allows(items[i], f, v) ensures f.low <= v <= f.high {
        AllowedWithinBounds(items[i], f, v);
      }
    }
  }

  // Whatever is accepted lies within the field's own bounds.
  lemma AllowedWithinBounds(item: Item, f: Field, v: int)
    requires f in FIELDS && Allows(item, f, v)
    ensures f.low <= v <= f.high
  {
  }

  // The weekdays a stepped range from 0 to 7 is written for, Sunday being both.
  predicate MeantWeekday(from: int, to: int, step: int, v: int)
    requires step >= 1
  {
    (0 <= v < 7 && Hits(from, to, step, v)) || (v == 0 && Hits(from, to, step, 7))
  }

  ghost predicate AllowsAsMeant(from: int, to: int, step: int)
    requires step >= 1
  {
    forall v :: Allows(Item(Range(from, to), step), FIELDS[4], v) <==> MeantWeekday(from, to, step, v)
  }

  /** A weekday range within 0 to 7 allows the days it is written for exactly when it does not end at 7, is 7 alone,
      or steps from 0 past all other days: one that ends at 7 is read as ending on the Sunday before, so it is
      refused, or is Sunday only. */
  lemma WeekdayRangeExactly(from: int, to: int, step: int)
    requires 0 <= from <= to <= 7 && step >= 1
    ensures AllowsAsMeant(from, to, step) <==> to < 7 || from == 7 || (from == 0 && step >= 7)
    ensures to == 7 && 0 < from < 7 ==> Ends(Range(from, to), FIELDS[4]) == Err(Backwards(from, to))
    ensures to == 7 && from == 0 ==> forall v :: Allows(Item(Range(from, to), step), FIELDS[4], v) <==> v == 0
  {
    var item := Item(Range(from, to), step);
    if to == 7 && 0 < from < 7 {
      assert MeantWeekday(from, to, step, from) && !Allows(item, FIELDS[4], from);
    } else if to == 7 && from == 0 && step < 7 {
      assert OnStep(0, step - step, step);
      assert MeantWeekday(from, to, step, step) && !Allows(item, FIELDS[4], step);
    }
  }

  /** A schedule fires at a minute of a day exactly when the minute, the hour and the date are all allowed: the day of
      the month, the month and the weekday, counted from a Thursday on day zero. */
  lemma FiresExactlyAsWritten(spec: CronSpec, calendar: int -> Civil, day: int, hour: int, minute: int,
                              week: int, weekday: int)
    requires 0 <= hour < 24 && 0 <= minute < 60 && 0 <= weekday < 7 && day == 7 * week + weekday - 4
    ensures var now := day * 1440 + hour * 60 + minute;
            LastFire(Fires(spec, calendar), now, 0)
            == if && minute in spec.minutes && hour in spec.hours
                  && calendar(day).day in spec.daysOfMonth && calendar(day).month in spec.months
                  && weekday in spec.daysOfWeek
               then Some(now) else None
  {
    ClockOf(day, hour, minute);
    WeekdayOf(week, weekday);
  }

  lemma ClockOf(day: int, hour: int, minute: int)
    requires 0 <= hour < 24 && 0 <= minute < 60
    ensures var t := day * 1440 + hour * 60 + minute; t % 60 == minute && t / 60 % 24 == hour && t / 1440 == day
  {
    assert day * 1440 + hour * 60 + minute == (day * 24 + hour) * 60 + minute;
  }

  lemma WeekdayOf(week: int, weekday: int)
    requires 0 <= weekday < 7
    ensures Weekday(7 * week + weekday - 4) == weekday
  {
  }

  // -- Beside crontab ----------------------------------------------------------------------------

  // A day field is restricted where no entry of it is a star.
  predicate Restricted(items: seq<Item>) { forall i :: 0 <= i < |items| ==> !items[i].span.Star? }

  // Crontab's reading of a date: where both day fields are restricted, either will do.
  predicate CrontabDate(spec: CronSpec, days: seq<Item>, weekdays: seq<Item>, dayNumber: int, calendar: int -> Civil) {
    var date := calendar(dayNumber);
    var dayOfMonth, dayOfWeek := date.day in spec.daysOfMonth, Weekday(dayNumber) in spec.daysOfWeek;
    && date.month in spec.months
    && if Restricted(days) && Restricted(weekdays) then dayOfMonth || dayOfWeek else dayOfMonth && dayOfWeek
  }

  /** A schedule never fires on a date crontab would not, and it leaves out a date crontab would fire on exactly
      when neither day field has a star and only one of them allows the date. */
  lemma DepartsFromCrontab(spec: CronSpec, days: seq<Item>, weekdays: seq<Item>, dayNumber: int, calendar: int -> Civil)
    ensures MatchesDate(spec, dayNumber, calendar) ==> CrontabDate(spec, days, weekdays, dayNumber, calendar)
    ensures CrontabDate(spec, days, weekdays, dayNumber, calendar) && !MatchesDate(spec, dayNumber, calendar)
            <==> calendar(dayNumber).month in spec.months && Restricted(days) && Restricted(weekdays)
                 && (calendar(dayNumber).day in spec.daysOfMonth <==> Weekday(dayNumber) !in spec.daysOfWeek)
  {
  }
}
