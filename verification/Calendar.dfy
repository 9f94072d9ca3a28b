/** The Gregorian calendar from 1970 on, and the calendar interval of each
    aggregation period that contains a moment. Moments are milliseconds since
    the start of 1970. */
module Calendar {
  import opened Measurements

  const MINUTE := 60 * 1000
  const HOUR := 60 * MINUTE
  const DAY := 24 * HOUR

  // -------------------------------------------------------------------- dates

  predicate Leap(y: nat) {
    y % 4 == 0 && (y % 100 != 0 || y % 400 == 0)
  }

  function YearLength(y: nat): (n: nat)
    ensures 365 <= n <= 366
  {
    if Leap(y) then 366 else 365
  }

  function MonthLength(y: nat, m: nat): (n: nat)
    requires 1 <= m <= 12
    ensures 28 <= n <= 31
  {
    if m == 2 then (if Leap(y) then 29 else 28) else if m == 4 || m == 6 || m == 9 || m == 11 then 30 else 31
  }

  /** Days from the start of 1970 to the start of year y. */
  function YearStart(y: nat): nat
    requires y >= 1970
  {
    if y == 1970 then 0 else YearStart(y - 1) + YearLength(y - 1)
  }

  /** Days from the start of year y to the start of its month m. */
  function MonthStart(y: nat, m: nat): nat
    requires 1 <= m <= 13
  {
    if m == 1 then 0 else MonthStart(y, m - 1) + MonthLength(y, m - 1)
  }

  datatype Date = Date(year: nat, month: nat, day: nat)

  predicate IsDate(d: Date) {
    d.year >= 1970 && 1 <= d.month <= 12 && 1 <= d.day <= MonthLength(d.year, d.month)
  }

  function DayNumber(d: Date): nat
    requires IsDate(d)
  {
    YearStart(d.year) + MonthStart(d.year, d.month) + d.day - 1
  }

  function YearFrom(n: nat, y: nat): (r: nat)
    requires y >= 1970 && YearStart(y) <= n
    ensures r >= y && YearStart(r) <= n < YearStart(r + 1)
    decreases n - YearStart(y)
  {
    if n < YearStart(y + 1) then y else YearFrom(n, y + 1)
  }

  function MonthFrom(y: nat, k: nat, m: nat): (r: nat)
    requires 1 <= m <= 12 && MonthStart(y, m) <= k < MonthStart(y, 13)
    ensures m <= r <= 12 && MonthStart(y, r) <= k < MonthStart(y, r + 1)
    decreases 12 - m
  {
    if k < MonthStart(y, m + 1) || m == 12 then m else MonthFrom(y, k, m + 1)
  }

  lemma YearIsTwelveMonths(y: nat)
    ensures MonthStart(y, 13) == YearLength(y)
  {
    assert MonthStart(y, 1) == 0;
    assert MonthStart(y, 2) == 31;
    assert MonthStart(y, 3) == 59 + if Leap(y) then 1 else 0;
    assert MonthStart(y, 4) == MonthStart(y, 3) + 31;
    assert MonthStart(y, 5) == MonthStart(y, 4) + 30;
    assert MonthStart(y, 6) == MonthStart(y, 5) + 31;
    assert MonthStart(y, 7) == MonthStart(y, 6) + 30;
    assert MonthStart(y, 8) == MonthStart(y, 7) + 31;
    assert MonthStart(y, 9) == MonthStart(y, 8) + 31;
    assert MonthStart(y, 10) == MonthStart(y, 9) + 30;
    assert MonthStart(y, 11) == MonthStart(y, 10) + 31;
    assert MonthStart(y, 12) == MonthStart(y, 11) + 30;
    assert MonthStart(y, 13) == MonthStart(y, 12) + 31;
  }

  /** The date of a day number. */
  function DateOf(n: nat): (d: Date)
    ensures IsDate(d) && DayNumber(d) == n
  {
    var y := YearFrom(n, 1970);
    var k := n - YearStart(y);
    assert MonthStart(y, 13) == YearLength(y) by {
      YearIsTwelveMonths(y);
    }
    var m := MonthFrom(y, k, 1);
    Date(y, m, k - MonthStart(y, m) + 1)
  }

  lemma {:induction false} YearsAscend(y: nat, z: nat)
    requires 1970 <= y < z
    ensures YearStart(y) + YearLength(y) <= YearStart(z)
    decreases z
  {
    if y < z - 1 {
      YearsAscend(y, z - 1);
    }
  }

  lemma {:induction false} MonthsAscend(y: nat, m: nat, k: nat)
    requires 1 <= m < k <= 13
    ensures MonthStart(y, m) + MonthLength(y, m) <= MonthStart(y, k)
    decreases k
  {
    if m < k - 1 {
      MonthsAscend(y, m, k - 1);
    }
  }

  /** No two dates have one number. */
  lemma DatesDiffer(c: Date, d: Date)
    requires IsDate(c) && IsDate(d) && DayNumber(c) == DayNumber(d)
    ensures c == d
  {
    hide YearStart, MonthStart, MonthLength;
    InYear(c);
    InYear(d);
    if c.year < d.year {
      YearsAscend(c.year, d.year);
    } else if d.year < c.year {
      YearsAscend(d.year, c.year);
    } else if c.month < d.month {
      MonthsAscend(c.year, c.month, d.month);
    } else if d.month < c.month {
      MonthsAscend(c.year, d.month, c.month);
    }
  }

  lemma InYear(d: Date)
    requires IsDate(d)
    ensures MonthStart(d.year, d.month) + d.day <= YearLength(d.year)
  {
    YearIsTwelveMonths(d.year);
    MonthsAscend(d.year, d.month, 13);
  }

  /** Day numbers and dates are two names for the same thing. */
  lemma DateRoundTrip(d: Date)
    requires IsDate(d)
    ensures DateOf(DayNumber(d)) == d
  {
    DatesDiffer(DateOf(DayNumber(d)), d);
  }

  /** Leap years before year y, by the rule of fours, hundreds and four hundreds. */
  function LeapsBefore(y: nat): int
    requires y >= 1
  {
    (y - 1) / 4 - (y - 1) / 100 + (y - 1) / 400
  }

  lemma QuotientSteps(y: nat)
    requires y >= 1
    ensures y / 4 == (y - 1) / 4 + if y % 4 == 0 then 1 else 0
    ensures y / 100 == (y - 1) / 100 + if y % 100 == 0 then 1 else 0
    ensures y / 400 == (y - 1) / 400 + if y % 400 == 0 then 1 else 0
  {
  }

  lemma LeapStep(y: nat)
    requires y >= 1
    ensures LeapsBefore(y + 1) == LeapsBefore(y) + if Leap(y) then 1 else 0
  {
    QuotientSteps(y);
    if y % 400 == 0 {
      Remainder(y, 100, 4 * (y / 400), 0);
    }
    if y % 100 == 0 {
      Remainder(y, 4, 25 * (y / 100), 0);
    }
  }

  /** The recursive calendar is the usual closed formula. */
  lemma {:induction false} YearStartClosed(y: nat)
    requires y >= 1970
    ensures YearStart(y) == 365 * (y - 1970) + LeapsBefore(y) - LeapsBefore(1970)
  {
    hide LeapsBefore, Leap;
    if y > 1970 {
      YearStartClosed(y - 1);
      LeapStep(y - 1);
    }
  }

  // ---------------------------------------------------------------- intervals

  datatype Period = Minute | HalfHour | Hour | Day | Week | Month | Year

  /** The nominal length of a period. */
  function IntervalTime(p: Period): nat {
    match p
    case Minute => MINUTE
    case HalfHour => 30 * MINUTE
    case Hour => HOUR
    case Day => DAY
    case Week => 7 * DAY
    case Month => 31 * DAY
    case Year => 365 * DAY
  }

  /** Days since Monday. */
  function Weekday(n: int): (w: nat)
    ensures w < 7
  {
    (n + 3) % 7
  }

  function FirstMoment(n: int): int {
    n * DAY
  }

  function LastMoment(n: int): int {
    n * DAY + DAY - 1
  }

  function MonthDays(d: Date): (r: (nat, nat))
    requires IsDate(d)
  {
    (DayNumber(Date(d.year, d.month, 1)), DayNumber(Date(d.year, d.month, MonthLength(d.year, d.month))))
  }

  function YearDays(d: Date): (r: (nat, nat))
    requires IsDate(d)
  {
    (DayNumber(Date(d.year, 1, 1)), DayNumber(Date(d.year, 12, 31)))
  }

  predicate Fixed(p: Period) {
    p.Minute? || p.HalfHour? || p.Hour? || p.Day?
  }

  /** The short periods, from the day number and the time of day. */
  function ClockInterval(p: Period, n: nat, hour: nat, minute: nat): (int, int)
    requires Fixed(p)
  {
    var h := FirstMoment(n) + hour * HOUR;
    match p
    case Minute => (h + minute * MINUTE, h + minute * MINUTE + MINUTE - 1)
    case HalfHour =>
      if minute < 30 then (h, h + 29 * MINUTE + MINUTE - 1) else (h + 30 * MINUTE, h + 59 * MINUTE + MINUTE - 1)
    case Hour => (h, h + 59 * MINUTE + MINUTE - 1)
    case Day => (FirstMoment(n), LastMoment(n))
  }

  function HourOf(t: nat): nat {
    t % DAY / HOUR
  }

  function MinuteOf(t: nat): nat {
    t % HOUR / MINUTE
  }

  function DayOf(t: nat): nat {
    t / DAY
  }

  /** First and last moment of the interval that contains t. */
  function Interval(p: Period, t: nat): (int, int) {
    var date := DateOf(t / DAY);
    var n := DayNumber(date);
    match p
    case Week => (FirstMoment(n - Weekday(n)), LastMoment(n + 6 - Weekday(n)))
    case Month => (FirstMoment(MonthDays(date).0), LastMoment(MonthDays(date).1))
    case Year => (FirstMoment(YearDays(date).0), LastMoment(YearDays(date).1))
    case _ => ClockInterval(p, n, HourOf(t), MinuteOf(t))
  }

  /** The two loops of the week case, stepping day by day. */
  method WeekOf(day: nat) returns (startDay: int, endDay: int)
    ensures startDay == day - Weekday(day) && endDay == day + 6 - Weekday(day)
  {
    endDay := day;
    while Weekday(endDay) != 6
      invariant day <= endDay <= day + 6 - Weekday(day)
      decreases day + 6 - endDay
    {
      endDay := endDay + 1;
    }
    startDay := day;
    while Weekday(startDay) != 0
      invariant day - Weekday(day) <= startDay <= day
      decreases startDay + 7 - day
    {
      startDay := startDay - 1;
    }
  }

  /** A moment is its day, hour, minute and the rest. */
  lemma Clock(t: nat)
    ensures var n, h, m, r := DayOf(t), HourOf(t), MinuteOf(t), t % MINUTE;
            t == n * DAY + h * HOUR + m * MINUTE + r && h < 24 && m < 60 && r < MINUTE
  {
    assert t % HOUR == t % DAY % HOUR by {
      DayHour(t / DAY, t % DAY);
    }
    assert t % MINUTE == t % HOUR % MINUTE by {
      HourMinute(t / HOUR, t % HOUR);
    }
  }

  lemma DayHour(n: nat, x: nat)
    ensures (n * DAY + x) % HOUR == x % HOUR
  {
    Remainder(n * DAY + x, HOUR, 24 * n + x / HOUR, x % HOUR);
  }

  lemma HourMinute(n: nat, x: nat)
    ensures (n * HOUR + x) % MINUTE == x % MINUTE
  {
    Remainder(n * HOUR + x, MINUTE, 60 * n + x / MINUTE, x % MINUTE);
  }

  /** What is left of a moment after the multiples of a short period. */
  function ClockRest(p: Period, h: nat, m: nat, r: nat): nat
    requires Fixed(p)
  {
    match p
    case Minute => r
    case HalfHour => (if m < 30 then m else m - 30) * MINUTE + r
    case Hour => m * MINUTE + r
    case Day => h * HOUR + m * MINUTE + r
  }

  lemma ClockRestIs(p: Period, n: nat, h: nat, m: nat, r: nat)
    requires Fixed(p) && h < 24 && m < 60 && r < MINUTE
    ensures (n * DAY + h * HOUR + m * MINUTE + r) % IntervalTime(p) == ClockRest(p, h, m, r)
  {
    var k := match p
      case Minute => 1440 * n + 60 * h + m
      case HalfHour => 48 * n + 2 * h + if m < 30 then 0 else 1
      case Hour => 24 * n + h
      case Day => n;
    Remainder(n * DAY + h * HOUR + m * MINUTE + r, IntervalTime(p), k, ClockRest(p, h, m, r));
  }

  lemma ClockStarts(p: Period, n: nat, h: nat, m: nat, r: nat)
    requires Fixed(p) && m < 60 && r < MINUTE
    ensures var a := n * DAY + h * HOUR + m * MINUTE + r - ClockRest(p, h, m, r);
            ClockInterval(p, n, h, m) == (a, a + IntervalTime(p) - 1)
  {
  }

  lemma ClockIs(p: Period, t: nat)
    requires Fixed(p)
    ensures Interval(p, t) == ClockInterval(p, DayOf(t), HourOf(t), MinuteOf(t))
  {
    hide DateOf, DayNumber, ClockInterval, HourOf, MinuteOf;
    assert DayNumber(DateOf(t / DAY)) == t / DAY;
  }

  /** The short periods are plain multiples. */
  lemma FixedInterval(p: Period, t: nat)
    requires Fixed(p)
    ensures var l := IntervalTime(p); Interval(p, t) == (t - t % l, t - t % l + l - 1)
  {
    hide Interval, ClockInterval, ClockRest, DayOf, HourOf, MinuteOf, IntervalTime;
    ClockIs(p, t);
    Clock(t);
    ClockRestIs(p, DayOf(t), HourOf(t), MinuteOf(t), t % MINUTE);
    ClockStarts(p, DayOf(t), HourOf(t), MinuteOf(t), t % MINUTE);
  }

  /** Weeks are counted from the Monday before the start of 1970. */
  lemma WeekInterval(t: nat)
    ensures var q := (t / DAY + 3) / 7; Interval(Week, t) == ((7 * q - 3) * DAY, (7 * q + 4) * DAY - 1)
  {
    hide DateOf, DayNumber;
    assert DayNumber(DateOf(t / DAY)) == t / DAY;
  }

  // ------------------------------------------------------------------- tiling

  /** The interval of t contains t. */
  lemma Contains(p: Period, t: nat)
    ensures Interval(p, t).0 <= t <= Interval(p, t).1
  {
    hide Interval;
    if Fixed(p) {
      FixedInterval(p, t);
    } else if p.Week? {
      WeekInterval(t);
    } else {
      ContainsDates(p, t);
    }
  }

  lemma ContainsDates(p: Period, t: nat)
    requires p.Month? || p.Year?
    ensures Interval(p, t).0 <= t <= Interval(p, t).1
  {
    hide YearStart, MonthStart, DateOf, MonthLength;
    var date := DateOf(t / DAY);
    assert DayNumber(date) == t / DAY && IsDate(date);
    InYear(date);
    YearDaysAre(date.year);
    MonthFirst(date.year);
  }

  lemma MonthFirst(y: nat)
    ensures MonthStart(y, 1) == 0
  {
  }

  lemma YearDaysAre(y: nat)
    requires y >= 1970
    ensures DayNumber(Date(y, 1, 1)) == YearStart(y)
    ensures DayNumber(Date(y, 12, 31)) == YearStart(y) + YearLength(y) - 1
    ensures YearStart(y + 1) == YearStart(y) + YearLength(y)
  {
    YearIsTwelveMonths(y);
  }

  lemma YearOfDay(n: nat, y: nat)
    requires y >= 1970 && YearStart(y) <= n < YearStart(y) + YearLength(y)
    ensures DateOf(n).year == y
  {
    hide YearStart, MonthStart, DateOf;
    var d := DateOf(n);
    InYear(d);
    if d.year < y {
      YearsAscend(d.year, y);
    } else if d.year > y {
      YearsAscend(y, d.year);
    }
  }

  /** The month after the one of date d. */
  function NextMonth(d: Date): (r: Date)
    requires IsDate(d)
    ensures IsDate(r) && r.day == 1
  {
    if d.month < 12 then Date(d.year, d.month + 1, 1) else Date(d.year + 1, 1, 1)
  }

  lemma NextMonthFollows(d: Date)
    requires IsDate(d)
    ensures DayNumber(NextMonth(d)) == MonthDays(d).1 + 1
  {
    YearIsTwelveMonths(d.year);
  }

  /** A month's interval runs from the first day of the month of t to the
      moment before the first day of the next month. */
  lemma MonthInterval(t: nat)
    ensures var d := DateOf(t / DAY);
            Interval(Month, t)
            == (FirstMoment(DayNumber(Date(d.year, d.month, 1))), FirstMoment(DayNumber(NextMonth(d))) - 1)
  {
    hide YearStart, MonthStart, DateOf, MonthLength, DayNumber;
    NextMonthFollows(DateOf(t / DAY));
  }

  /** A year's interval runs from New Year's Day to the moment before the next. */
  lemma YearInterval(t: nat)
    ensures var d := DateOf(t / DAY);
            Interval(Year, t)
            == (FirstMoment(DayNumber(Date(d.year, 1, 1))), FirstMoment(DayNumber(Date(d.year + 1, 1, 1))) - 1)
  {
    hide YearStart, MonthStart, DateOf, DayNumber, YearLength;
    var d := DateOf(t / DAY);
    YearDaysAre(d.year);
    YearDaysAre(d.year + 1);
  }

  lemma TilesFixed(p: Period, t: nat)
    requires Fixed(p)
    ensures var e := Interval(p, t).1; e >= t && Interval(p, e + IntervalTime(p) / 2).0 == e + 1
  {
    hide Interval;
    var l := IntervalTime(p);
    FixedInterval(p, t);
    var x := Interval(p, t).1 + l / 2;
    FixedInterval(p, x);
    Remainder(x, l, t / l + 1, l / 2 - 1);
  }

  lemma TilesWeek(t: nat)
    ensures var e := Interval(Week, t).1; e >= t && Interval(Week, e + 7 * DAY / 2).0 == e + 1
  {
    hide Interval;
    WeekInterval(t);
    var q, x := (t / DAY + 3) / 7, Interval(Week, t).1 + 7 * DAY / 2;
    Remainder(x, DAY, 7 * q + 7, DAY / 2 - 1);
    Remainder(7 * q + 10, 7, q + 1, 3);
    WeekInterval(x);
  }

  lemma TilesMonth(t: nat)
    ensures var e := Interval(Month, t).1; e >= t && Interval(Month, e + 31 * DAY / 2).0 == e + 1
  {
    hide YearStart, MonthStart, DateOf, MonthLength, DayNumber;
    Contains(Month, t);
    var date := DateOf(t / DAY);
    var n := MonthDays(date).1;
    var next := NextMonth(date);
    var d := Date(next.year, next.month, 16);
    NextMonthFollows(date);
    LaterInMonth(next, d);
    DateRoundTrip(d);
    var x := Interval(Month, t).1 + 31 * DAY / 2;
    assert x / DAY == n + 16;
  }

  lemma LaterInMonth(first: Date, d: Date)
    requires IsDate(first) && IsDate(d) && first.day == 1 && d.year == first.year && d.month == first.month
    ensures DayNumber(d) == DayNumber(first) + d.day - 1
  {
  }

  lemma TilesYear(t: nat)
    ensures var e := Interval(Year, t).1; e >= t && Interval(Year, e + 365 * DAY / 2).0 == e + 1
  {
    hide YearStart, MonthStart, DateOf, DayNumber, YearLength;
    Contains(Year, t);
    var y := DateOf(t / DAY).year;
    YearDaysAre(y);
    YearDaysAre(y + 1);
    var x := Interval(Year, t).1 + 365 * DAY / 2;
    assert x / DAY == YearStart(y + 1) + 182;
    YearOfDay(x / DAY, y + 1);
  }

  /** Half a nominal period past the end of an interval lies in the next one,
      which begins at the very next moment. */
  lemma Tiles(p: Period, t: nat)
    ensures var e := Interval(p, t).1; e >= t && Interval(p, e + IntervalTime(p) / 2).0 == e + 1
  {
    hide Interval;
    match p {
      case Week => TilesWeek(t);
      case Month => TilesMonth(t);
      case Year => TilesYear(t);
      case Minute => TilesFixed(p, t);
      case HalfHour => TilesFixed(p, t);
      case Hour => TilesFixed(p, t);
      case Day => TilesFixed(p, t);
    }
  }

  lemma MonthOfDay(n: nat, first: Date)
    requires IsDate(first) && first.day == 1
    requires DayNumber(first) <= n < DayNumber(first) + MonthLength(first.year, first.month)
    ensures DateOf(n).year == first.year && DateOf(n).month == first.month
  {
    hide YearStart, MonthStart, DateOf;
    var d := Date(first.year, first.month, n - DayNumber(first) + 1);
    LaterInMonth(first, d);
    DateRoundTrip(d);
  }

  lemma SameFixed(p: Period, t: nat, x: nat)
    requires Fixed(p) && Interval(p, t).0 <= x <= Interval(p, t).1
    ensures Interval(p, x) == Interval(p, t)
  {
    hide Interval;
    var l := IntervalTime(p);
    FixedInterval(p, t);
    FixedInterval(p, x);
    Remainder(x, l, t / l, x - (t - t % l));
  }

  lemma SameWeek(t: nat, x: nat)
    requires Interval(Week, t).0 <= x <= Interval(Week, t).1
    ensures Interval(Week, x) == Interval(Week, t)
  {
    hide Interval;
    WeekInterval(t);
    WeekInterval(x);
    var q, n := (t / DAY + 3) / 7, x / DAY;
    assert 7 * q - 3 <= n <= 7 * q + 3;
    Remainder(n + 3, 7, q, n + 3 - 7 * q);
  }

  lemma SameMonth(t: nat, x: nat)
    requires Interval(Month, t).0 <= x <= Interval(Month, t).1
    ensures Interval(Month, x) == Interval(Month, t)
  {
    hide YearStart, MonthStart, DateOf, DayNumber, MonthLength;
    var date := DateOf(t / DAY);
    var first := Date(date.year, date.month, 1);
    LaterInMonth(first, Date(date.year, date.month, MonthLength(date.year, date.month)));
    MonthOfDay(x / DAY, first);
  }

  lemma SameYear(t: nat, x: nat)
    requires Interval(Year, t).0 <= x <= Interval(Year, t).1
    ensures Interval(Year, x) == Interval(Year, t)
  {
    hide YearStart, MonthStart, DateOf, DayNumber, YearLength;
    var y := DateOf(t / DAY).year;
    YearDaysAre(y);
    YearOfDay(x / DAY, y);
  }

  /** All moments of an interval have that interval. */
  lemma Same(p: Period, t: nat, x: nat)
    requires Interval(p, t).0 <= x <= Interval(p, t).1
    ensures Interval(p, x) == Interval(p, t)
  {
    hide Interval;
    match p {
      case Week => SameWeek(t, x);
      case Month => SameMonth(t, x);
      case Year => SameYear(t, x);
      case Minute => SameFixed(p, t, x);
      case HalfHour => SameFixed(p, t, x);
      case Hour => SameFixed(p, t, x);
      case Day => SameFixed(p, t, x);
    }
  }
}
