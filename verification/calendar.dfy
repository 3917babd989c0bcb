/** The proleptic Gregorian calendar as Python's datetime module counts it:
    day ordinal 1 is 0001-01-01, a Monday. Dates convert to ordinals by the
    closed-form day count and back by a terminating search; the weekday, the
    English day name and the ISO 8601 week calendar are derived from ordinals. */
module Calendar {

  datatype Date = Date(year: int, month: int, day: int)

  predicate IsLeapYear(y: int) {
    y % 4 == 0 && (y % 100 != 0 || y % 400 == 0)
  }

  function DaysInYear(y: int): int {
    if IsLeapYear(y) then 366 else 365
  }

  function DaysInMonth(y: int, m: int): int
    requires 1 <= m <= 12
  {
    if m == 2 then (if IsLeapYear(y) then 29 else 28)
    else if m == 4 || m == 6 || m == 9 || m == 11 then 30
    else 31
  }

  /** Number of days of year y that lie before the first of month m. */
  function DaysBeforeMonth(y: int, m: int): int
    requires 1 <= m <= 13
  {
    if m == 1 then 0 else DaysBeforeMonth(y, m - 1) + DaysInMonth(y, m - 1)
  }

  /** Number of days before 1 January of year y, counted from 0001-01-01. */
  function DaysBeforeYear(y: int): int {
    var p := y - 1;
    365 * p + p / 4 - p / 100 + p / 400
  }

  predicate ValidDate(d: Date) {
    d.year >= 1 && 1 <= d.month <= 12 && 1 <= d.day <= DaysInMonth(d.year, d.month)
  }

  /** Lexicographic order of (year, month, day): how Python compares dates. */
  predicate DateBefore(a: Date, b: Date) {
    a.year < b.year
    || (a.year == b.year && a.month < b.month)
    || (a.year == b.year && a.month == b.month && a.day < b.day)
  }

  lemma MonthsFillYear(y: int)
    ensures DaysBeforeMonth(y, 13) == DaysInYear(y)
  {
    var feb := DaysInMonth(y, 2);
    assert DaysBeforeMonth(y, 2) == 31;
    assert DaysBeforeMonth(y, 3) == 31 + feb;
    assert DaysBeforeMonth(y, 4) == 62 + feb;
    assert DaysBeforeMonth(y, 5) == 92 + feb;
    assert DaysBeforeMonth(y, 6) == 123 + feb;
    assert DaysBeforeMonth(y, 7) == 153 + feb;
    assert DaysBeforeMonth(y, 8) == 184 + feb;
    assert DaysBeforeMonth(y, 9) == 215 + feb;
    assert DaysBeforeMonth(y, 10) == 245 + feb;
    assert DaysBeforeMonth(y, 11) == 276 + feb;
    assert DaysBeforeMonth(y, 12) == 306 + feb;
    assert DaysBeforeMonth(y, 13) == 337 + feb;
  }

  lemma {:induction false} DaysBeforeMonthGrows(y: int, m: int, n: int)
    requires 1 <= m <= n <= 13
    ensures DaysBeforeMonth(y, m) + (n - m) * 28 <= DaysBeforeMonth(y, n)
    decreases n - m
  {
    if m < n {
      DaysBeforeMonthGrows(y, m + 1, n);
    }
  }

  /** Consecutive years are DaysInYear apart: the closed form counts leap days right. */
  lemma YearLength(y: int)
    ensures DaysBeforeYear(y + 1) == DaysBeforeYear(y) + DaysInYear(y)
  {
    LeapDayStep4(y);
    LeapDayStep100(y);
    LeapDayStep400(y);
  }

  /** Going from year y - 1 to y, each term of the leap-day count grows by one
      exactly when y is a multiple of its period. */
  lemma LeapDayStep4(y: int)
    ensures y / 4 - (y - 1) / 4 == if y % 4 == 0 then 1 else 0
  {
  }

  lemma LeapDayStep100(y: int)
    ensures y / 100 - (y - 1) / 100 == if y % 100 == 0 then 1 else 0
  {
  }

  lemma LeapDayStep400(y: int)
    ensures y / 400 - (y - 1) / 400 == if y % 400 == 0 then 1 else 0
  {
  }

  lemma {:induction false} YearsIncrease(y: int, z: int)
    requires y <= z
    ensures DaysBeforeYear(y) + 365 * (z - y) <= DaysBeforeYear(z)
    decreases z - y
  {
    if y < z {
      YearLength(y);
      YearsIncrease(y + 1, z);
    }
  }

  lemma DaysBeforeYearUpperBound(y: int)
    requires y >= 1
    ensures DaysBeforeYear(y) <= 366 * (y - 1)
  {
    var p := y - 1;
    assert p / 400 <= p / 100;
    assert p / 4 <= p;
  }

  /** Ordinal of a valid date; 0001-01-01 is ordinal 1. */
  function ToOrdinal(d: Date): (o: int)
    requires ValidDate(d)
    ensures DaysBeforeYear(d.year) < o <= DaysBeforeYear(d.year + 1)
    ensures DaysBeforeMonth(d.year, d.month) < o - DaysBeforeYear(d.year) <= DaysBeforeMonth(d.year, d.month + 1)
    ensures o >= 1
  {
    YearLength(d.year);
    MonthsFillYear(d.year);
    DaysBeforeMonthGrows(d.year, d.month + 1, 13);
    DaysBeforeMonthGrows(d.year, 1, d.month);
    YearsIncrease(1, d.year);
    DaysBeforeYear(d.year) + DaysBeforeMonth(d.year, d.month) + d.day
  }

  /** The year whose days contain ordinal o, searched upward from year y. */
  function YearFrom(o: int, y: int): (r: int)
    requires DaysBeforeYear(y) < o
    ensures r >= y
    ensures DaysBeforeYear(r) < o <= DaysBeforeYear(r + 1)
    decreases o - DaysBeforeYear(y)
  {
    YearLength(y);
    if o <= DaysBeforeYear(y + 1) then y else YearFrom(o, y + 1)
  }

  /** The month of year y holding day-of-year doy, searched upward from month m. */
  function MonthFrom(y: int, doy: int, m: int): (r: int)
    requires 1 <= m <= 12
    requires DaysBeforeMonth(y, m) < doy <= DaysBeforeMonth(y, 13)
    ensures m <= r <= 12
    ensures DaysBeforeMonth(y, r) < doy <= DaysBeforeMonth(y, r + 1)
    decreases 12 - m
  {
    if doy <= DaysBeforeMonth(y, m + 1) then m else MonthFrom(y, doy, m + 1)
  }

  /** Calendar date of a day ordinal (Python's date.fromordinal). */
  function FromOrdinal(o: int): (d: Date)
    requires o >= 1
    ensures ValidDate(d)
    ensures ToOrdinal(d) == o
  {
    var y0 := (o - 1) / 366 + 1;
    DaysBeforeYearUpperBound(y0);
    var y := YearFrom(o, y0);
    YearLength(y);
    MonthsFillYear(y);
    var doy := o - DaysBeforeYear(y);
    var m := MonthFrom(y, doy, 1);
    Date(y, m, doy - DaysBeforeMonth(y, m))
  }

  /** Distinct valid dates have distinct ordinals, ordered as the dates are. */
  lemma OrdinalMonotone(a: Date, b: Date)
    requires ValidDate(a) && ValidDate(b)
    ensures DateBefore(a, b) <==> ToOrdinal(a) < ToOrdinal(b)
    ensures a == b <==> ToOrdinal(a) == ToOrdinal(b)
  {
    if DateBefore(a, b) {
      OrdinalIncreases(a, b);
    } else if DateBefore(b, a) {
      OrdinalIncreases(b, a);
    }
  }

  /** A later date has a larger ordinal. */
  lemma OrdinalIncreases(a: Date, b: Date)
    requires ValidDate(a) && ValidDate(b) && DateBefore(a, b)
    ensures ToOrdinal(a) < ToOrdinal(b)
  {
    if a.year < b.year {
      YearsIncrease(a.year + 1, b.year);
    } else if a.month < b.month {
      DaysBeforeMonthGrows(a.year, a.month + 1, b.month);
    }
  }

  /** Round trip from dates: every valid date is recovered from its ordinal. */
  lemma FromToOrdinal(d: Date)
    requires ValidDate(d)
    ensures FromOrdinal(ToOrdinal(d)) == d
  {
    OrdinalMonotone(FromOrdinal(ToOrdinal(d)), d);
  }

  /** Day of the week, Monday = 0 through Sunday = 6 (pandas' day_of_week). */
  function Weekday(o: int): (w: int)
    ensures 0 <= w <= 6
    ensures (o - w) % 7 == 1
  {
    (o + 6) % 7
  }

  const WeekdayNames: seq<string> :=
    ["Monday", "Tuesday", "Wednesday", "Thursday", "Friday", "Saturday", "Sunday"]

  /** English name of the day (pandas' day_name). */
  function WeekdayName(o: int): (name: string)
    ensures name == WeekdayNames[Weekday(o)]
    ensures name == "Saturday" || name == "Sunday" <==> Weekday(o) > 4
  {
    WeekdayNames[Weekday(o)]
  }

  // ---------------------------------------------------------------------------
  // ISO 8601 week calendar

  /** Ordinal of 4 January of year y. */
  function Jan4(y: int): int {
    DaysBeforeYear(y) + 4
  }

  /** Monday that begins ISO week 1 of year y: the Monday on or before 4 January. */
  function Week1Start(y: int): (o: int)
    ensures Weekday(o) == 0
    ensures Jan4(y) - 6 <= o <= Jan4(y)
  {
    MondayOnOrBefore(Jan4(y));
    Jan4(y) - Weekday(Jan4(y))
  }

  lemma MondayOnOrBefore(x: int)
    ensures Weekday(x - Weekday(x)) == 0
  {
  }

  /** Weekday read off a known division of x + 6 by 7. */
  lemma WeekdayFromQuotient(x: int, q: int, r: int)
    requires x + 6 == 7 * q + r && 0 <= r < 7
    ensures Weekday(x) == r
  {
  }

  /** Mondays on or before two days a (common or leap) year apart are 52 or 53 weeks apart. */
  lemma MondaysAYearApart(x: int, n: int)
    requires n == 365 || n == 366
    ensures var d := (x + n - Weekday(x + n)) - (x - Weekday(x)); d == 364 || d == 371
  {
    var q := (x + 6) / 7;
    var w := Weekday(x);
    WeekdayFromQuotient(x, q, w);
    if w + n - 364 < 7 {
      WeekdayFromQuotient(x + n, q + 52, w + n - 364);
    } else {
      WeekdayFromQuotient(x + n, q + 53, w + n - 371);
    }
  }

  /** ISO years are 52 or 53 whole weeks long. */
  lemma IsoYearLength(y: int)
    ensures Week1Start(y + 1) - Week1Start(y) == 364 || Week1Start(y + 1) - Week1Start(y) == 371
  {
    YearLength(y);
    MondaysAYearApart(Jan4(y), DaysInYear(y));
  }

  lemma {:induction false} Week1StartIncreases(y: int, z: int)
    requires y < z
    ensures Week1Start(y) + 364 * (z - y) <= Week1Start(z)
    decreases z - y
  {
    IsoYearLength(y);
    if y + 1 < z {
      Week1StartIncreases(y + 1, z);
    }
  }

  /** The ISO 8601 reading of a day: it lies in ISO year y, in week w, on ISO weekday k (Monday = 1). */
  predicate IsIsoDate(o: int, y: int, w: int, k: int) {
    && Week1Start(y) <= o < Week1Start(y + 1)
    && w == (o - Week1Start(y)) / 7 + 1
    && k == Weekday(o) + 1
  }

  datatype IsoDate = IsoDate(year: int, week: int, weekday: int)

  /** Python datetime's _isoweek1monday: the Monday of ISO week 1, from 1 January. */
  function IsoWeek1Monday(y: int): (o: int)
    ensures o == Week1Start(y)
  {
    var firstDay := DaysBeforeYear(y) + 1;
    var firstWeekday := (firstDay + 6) % 7;
    var monday := firstDay - firstWeekday;
    Week1MondayFromJan1(firstDay);
    if firstWeekday > 3 then monday + 7 else monday
  }

  /** The Monday of week 1 is found from 1 January's weekday: move back to Monday
      when 1 January falls Monday to Thursday, forward otherwise. */
  lemma Week1MondayFromJan1(f: int)
    ensures var fw := (f + 6) % 7;
      (if fw > 3 then f - fw + 7 else f - fw) == f + 3 - Weekday(f + 3)
  {
    var q := (f + 6) / 7;
    var fw := (f + 6) % 7;
    if fw > 3 {
      WeekdayFromQuotient(f + 3, q + 1, fw - 4);
    } else {
      WeekdayFromQuotient(f + 3, q, fw + 3);
    }
  }

  /** Python datetime's isocalendar(): start from the calendar year and step back
      into the previous ISO year or forward into the next one at the edges. */
  function IsoCalendar(o: int): (r: IsoDate)
    requires o >= 1
    ensures IsIsoDate(o, r.year, r.week, r.weekday)
    ensures 1 <= r.week <= 53
    ensures 1 <= r.weekday <= 7
  {
    var year := FromOrdinal(o).year;
    CalendarYearNearIsoYear(o, year);
    var r := IsoCalendarInYear(o, year);
    IsoDateRanges(o, r.year, r.week, r.weekday);
    r
  }

  /** The ISO weekday is the pandas weekday plus one. */
  lemma IsoWeekdayAgrees(o: int)
    requires o >= 1
    ensures IsoCalendar(o).weekday == Weekday(o) + 1
  {
  }

  /** ISO weeks are numbered 1 to 53 and ISO weekdays 1 to 7. */
  lemma IsoDateRanges(o: int, y: int, w: int, k: int)
    requires IsIsoDate(o, y, w, k)
    ensures 1 <= w <= 53 && 1 <= k <= 7
  {
    IsoYearLength(y);
  }

  /** The body of isocalendar() once the calendar year of o is known; a day of
      that year lies at most three days outside ISO year `year`. */
  function IsoCalendarInYear(o: int, year: int): (r: IsoDate)
    requires Week1Start(year) - 3 <= o <= Week1Start(year + 1) + 2
    ensures IsIsoDate(o, r.year, r.week, r.weekday)
  {
    var week1Monday := IsoWeek1Monday(year);
    var week := (o - week1Monday) / 7;
    IsoBranches(o, year);
    if week < 0 then
      IsoDateOf(o, year - 1)
    else
      IsoCalendarLate(o, year, week)
  }

  /** The `week >= 0` part of isocalendar(): from week 52 on, a day on or after
      the next year's week-1 Monday belongs to the next ISO year. */
  function IsoCalendarLate(o: int, year: int, week: int): (r: IsoDate)
    requires Week1Start(year) <= o <= Week1Start(year + 1) + 2
    requires week == (o - Week1Start(year)) / 7
    ensures IsIsoDate(o, r.year, r.week, r.weekday)
  {
    IsoBranches(o, year);
    if week >= 52 && o >= IsoWeek1Monday(year + 1) then
      IsoDateOf(o, year + 1)
    else
      IsoDateOf(o, year)
  }

  /** The ISO reading of o once its ISO year y is known. */
  function IsoDateOf(o: int, y: int): (r: IsoDate)
    requires Week1Start(y) <= o < Week1Start(y + 1)
    ensures r.year == y
    ensures IsIsoDate(o, r.year, r.week, r.weekday)
    ensures 1 <= r.week <= 53
    ensures 1 <= r.weekday <= 7
  {
    var monday := IsoWeek1Monday(y);
    IsoInYear(o, y, monday);
    IsoDate(y, (o - monday) / 7 + 1, (o - monday) % 7 + 1)
  }

  /** Which ISO year each branch of IsoCalendarInYear selects. */
  lemma IsoBranches(o: int, year: int)
    requires Week1Start(year) - 3 <= o <= Week1Start(year + 1) + 2
    ensures var week := (o - Week1Start(year)) / 7;
      && (week < 0 ==> Week1Start(year - 1) <= o < Week1Start(year))
      && (!(week < 0) && week >= 52 && o >= Week1Start(year + 1) ==> Week1Start(year + 1) <= o < Week1Start(year + 2))
      && (!(week < 0) && !(week >= 52 && o >= Week1Start(year + 1)) ==> Week1Start(year) <= o < Week1Start(year + 1))
  {
    IsoYearLength(year - 1);
    IsoYearLength(year);
    IsoYearLength(year + 1);
    IsoWeekChoice(o, Week1Start(year - 1), Week1Start(year), Week1Start(year + 1), Week1Start(year + 2));
  }

  /** The branch choice of isocalendar() over four consecutive ISO year starts. */
  lemma IsoWeekChoice(o: int, m0: int, m1: int, m2: int, m3: int)
    requires m1 - m0 == 364 || m1 - m0 == 371
    requires m2 - m1 == 364 || m2 - m1 == 371
    requires m3 - m2 == 364 || m3 - m2 == 371
    requires m1 - 3 <= o <= m2 + 2
    ensures var week := (o - m1) / 7;
      && (week < 0 ==> m0 <= o < m1)
      && (!(week < 0) && week >= 52 && o >= m2 ==> m2 <= o < m3)
      && (!(week < 0) && !(week >= 52 && o >= m2) ==> m1 <= o < m2)
  {
  }

  /** A day between the starts m of ISO year y and of y + 1 reads as a week of y. */
  lemma IsoInYear(o: int, y: int, m: int)
    requires m == Week1Start(y)
    requires m <= o < Week1Start(y + 1)
    ensures IsIsoDate(o, y, (o - m) / 7 + 1, (o - m) % 7 + 1)
    ensures 1 <= (o - m) / 7 + 1 <= 53
    ensures (o - m) % 7 + 1 == Weekday(o) + 1
  {
    IsoYearLength(y);
    WeekdayFromMonday(m, o);
  }

  /** Counting days from a Monday, the remainder modulo 7 is the weekday. */
  lemma WeekdayFromMonday(m: int, o: int)
    requires Weekday(m) == 0
    ensures (o - m) % 7 == Weekday(o)
  {
    var q := (m + 6) / 7;
    WeekdayFromQuotient(m, q, 0);
    WeekdayFromQuotient(o, q + (o - m) / 7, (o - m) % 7);
  }

  /** A day of calendar year `year` lies at most three days outside ISO year `year`. */
  lemma CalendarYearNearIsoYear(o: int, year: int)
    requires DaysBeforeYear(year) < o <= DaysBeforeYear(year + 1)
    ensures Week1Start(year) - 3 <= o <= Week1Start(year + 1) + 2
  {
  }

  /** An ordinal has exactly one ISO reading. */
  lemma IsoDateUnique(o: int, y: int, w: int, k: int, y': int, w': int, k': int)
    requires IsIsoDate(o, y, w, k) && IsIsoDate(o, y', w', k')
    ensures y == y' && w == w' && k == k'
  {
    IsoYearUnique(o, y, y');
  }

  /** ISO years do not overlap. */
  lemma IsoYearUnique(o: int, y: int, y': int)
    requires Week1Start(y) <= o < Week1Start(y + 1)
    requires Week1Start(y') <= o < Week1Start(y' + 1)
    ensures y == y'
  {
    if y < y' {
      Week1StartIncreases(y + 1, y');
    } else if y' < y {
      Week1StartIncreases(y' + 1, y);
    }
  }

  /** ISO week 1 of year y contains 4 January (valid years). */
  lemma Jan4InWeekOne(y: int)
    requires y >= 1
    ensures IsoCalendar(Jan4(y)).year == y
    ensures IsoCalendar(Jan4(y)).week == 1
  {
    YearsIncrease(1, y);
    IsoYearLength(y);
    var r := IsoCalendar(Jan4(y));
    IsoDateUnique(Jan4(y), r.year, r.week, r.weekday, y, 1, Weekday(Jan4(y)) + 1);
  }

  /** Whole-week arithmetic: the six days after a Monday o stay in o's week,
      counted from any earlier Monday m and bounded by any later Monday n. */
  lemma DaysAfterMonday(o: int, k: int, m: int, n: int)
    requires Weekday(m) == 0 && Weekday(n) == 0 && Weekday(o) == 0
    requires m <= o < n && 0 <= k < 7
    ensures m <= o + k < n
    ensures (o + k - m) / 7 == (o - m) / 7
    ensures Weekday(o + k) == k
  {
    WeekdayFromMonday(m, o);
    WeekdayFromMonday(o, n);
    WeekdayFromMonday(o, o + k);
  }

  /** ISO weeks start on Monday: the k-th day after a Monday lies in the Monday's
      ISO year and week, on ISO weekday k + 1. */
  lemma DaysOfIsoWeek(o: int, k: int, y: int, w: int)
    requires IsIsoDate(o, y, w, 1) && 0 <= k < 7
    ensures IsIsoDate(o + k, y, w, k + 1)
  {
    DaysAfterMonday(o, k, Week1Start(y), Week1Start(y + 1));
  }

  // ---------------------------------------------------------------------------
  // Minute-resolution timestamps

  /** A naive datetime at minute resolution: minutes since 0001-01-01T00:00. */
  type Timestamp = nat

  const MinutesPerDay: nat := 1440

  /** Day ordinal of a timestamp (the ordinal of its `.dt.date`). */
  function DayOf(t: Timestamp): (o: int)
    ensures o >= 1
  {
    t / MinutesPerDay + 1
  }

  /** Hour of the day (pandas' `.dt.hour`). */
  function HourOf(t: Timestamp): (h: int)
    ensures 0 <= h <= 23
    ensures h * 60 <= t % MinutesPerDay < h * 60 + 60
  {
    (t % MinutesPerDay) / 60
  }

  /** The timestamp of date d at hh:mm (datetime.combine). */
  function At(d: Date, hh: int, mm: int): (t: Timestamp)
    requires ValidDate(d) && 0 <= hh < 24 && 0 <= mm < 60
    ensures DayOf(t) == ToOrdinal(d)
    ensures HourOf(t) == hh
    ensures t % MinutesPerDay == hh * 60 + mm
  {
    (ToOrdinal(d) - 1) * MinutesPerDay + hh * 60 + mm
  }

  /** Calendar date of a timestamp. */
  function DateOf(t: Timestamp): (d: Date)
    ensures ValidDate(d)
    ensures ToOrdinal(d) == DayOf(t)
  {
    FromOrdinal(DayOf(t))
  }

  /** Comparing `t.date()` with a date is comparing t with that day's first
      minute (for the lower bound) or the next day's first minute (for the upper
      bound): a date bound covers the whole day. */
  lemma DayWindow(t: Timestamp, lo: Date, hi: Date)
    requires ValidDate(lo) && ValidDate(hi)
    ensures !DateBefore(DateOf(t), lo) <==> (ToOrdinal(lo) - 1) * MinutesPerDay <= t
    ensures !DateBefore(hi, DateOf(t)) <==> t < ToOrdinal(hi) * MinutesPerDay
  {
    OrdinalMonotone(DateOf(t), lo);
    OrdinalMonotone(hi, DateOf(t));
  }

  /** Friday 2 June 2023, 07:00: weekday 4, "Friday", not a weekend, hour 7. */
  lemma FridayMorningExample()
    ensures var t := At(Date(2023, 6, 2), 7, 0);
      && Weekday(DayOf(t)) == 4
      && WeekdayName(DayOf(t)) == "Friday"
      && !(Weekday(DayOf(t)) > 4)
      && HourOf(t) == 7
  {
    assert ToOrdinal(Date(2023, 6, 2)) == 738673;
  }
}
