/** An explicit proleptic-Gregorian calendar standing in for the fields of
    java.util.GregorianCalendar that YearPlanner.java reads: day of year,
    week of year (Sunday-first weeks, week 1 being the week that contains
    January 1), the first day of a numbered week, and stepping a date by
    one day. */
module Gregorian {

  /** A date as year, month (1 = January) and day of month. */
  datatype Date = Date(year: int, month: int, day: int)

  predicate IsLeapYear(year: int) {
    year % 4 == 0 && (year % 100 != 0 || year % 400 == 0)
  }

  function YearLength(year: int): int {
    if IsLeapYear(year) then 366 else 365
  }

  function MonthLength(year: int, month: int): int
    requires 1 <= month <= 12
  {
    if month == 2 then (if IsLeapYear(year) then 29 else 28)
    else if month == 4 || month == 6 || month == 9 || month == 11 then 30
    else 31
  }

  predicate ValidDate(d: Date) {
    1 <= d.month <= 12 && 1 <= d.day <= MonthLength(d.year, d.month)
  }

  /** A date that exists in the calendar, as a java.util.Calendar holds. */
  type CalendarDate = d: Date | ValidDate(d) witness Date(1970, 1, 1)

  /** Days of the year that lie before the first of `month`; month 13 stands
      for the end of the year. */
  function DaysBeforeMonth(year: int, month: int): int
    requires 1 <= month <= 13
  {
    var common := match month
      case 1 => 0 case 2 => 31 case 3 => 59 case 4 => 90 case 5 => 120
      case 6 => 151 case 7 => 181 case 8 => 212 case 9 => 243 case 10 => 273
      case 11 => 304 case 12 => 334 case 13 => 365;
    common + (if month > 2 && IsLeapYear(year) then 1 else 0)
  }

  /** The cumulative table agrees with the month lengths, and the months
      fill the year exactly. */
  lemma MonthTable(year: int, month: int)
    requires 1 <= month <= 12
    ensures DaysBeforeMonth(year, 1) == 0
    ensures DaysBeforeMonth(year, 13) == YearLength(year)
    ensures DaysBeforeMonth(year, month + 1) == DaysBeforeMonth(year, month) + MonthLength(year, month)
  {
  }

  /** The 1-based position of a date in its year (Calendar.DAY_OF_YEAR). */
  function DayOfYear(d: CalendarDate): (n: int)
    ensures 1 <= n <= YearLength(d.year)
    ensures DaysBeforeMonth(d.year, d.month) < n <= DaysBeforeMonth(d.year, d.month + 1)
  {
    MonthTable(d.year, d.month);
    DaysBeforeMonth(d.year, d.month) + d.day
  }

  /** The month, at most `month`, in which day `n` of the year falls. */
  function MonthContaining(year: int, n: int, month: int): (m: int)
    requires 1 <= month <= 12 && 1 <= n
    ensures 1 <= m <= month
    ensures DaysBeforeMonth(year, m) < n
    ensures m == month || n <= DaysBeforeMonth(year, m + 1)
    decreases month
  {
    if month == 1 || DaysBeforeMonth(year, month) < n then month
    else MonthContaining(year, n, month - 1)
  }

  /** The date that is day `n` of `year`. */
  function FromDayOfYear(year: int, n: int): (d: CalendarDate)
    requires 1 <= n <= YearLength(year)
    ensures d.year == year && DayOfYear(d) == n
  {
    MonthTable(year, 12);
    var m := MonthContaining(year, n, 12);
    MonthTable(year, m);
    Date(year, m, n - DaysBeforeMonth(year, m))
  }

  /** Day of year and `FromDayOfYear` are inverse: a date is determined by
      its year and its day of year. */
  lemma FromDayOfYearRoundTrip(d: CalendarDate)
    ensures FromDayOfYear(d.year, DayOfYear(d)) == d
  {
    var e := FromDayOfYear(d.year, DayOfYear(d));
    var n := DayOfYear(d);
    assert DaysBeforeMonth(d.year, e.month) < n <= DaysBeforeMonth(d.year, e.month + 1);
    if e.month < d.month {
      MonthsIncrease(d.year, e.month + 1, d.month);
    } else if d.month < e.month {
      MonthsIncrease(d.year, d.month + 1, e.month);
    }
  }

  /** Later months start later in the year. */
  lemma {:induction false} MonthsIncrease(year: int, a: int, b: int)
    requires 1 <= a <= b <= 13
    ensures DaysBeforeMonth(year, a) <= DaysBeforeMonth(year, b)
    decreases b - a
  {
    if a < b {
      MonthsIncrease(year, a, b - 1);
      MonthTable(year, b - 1);
    }
  }

  /** Days from the proleptic 0001-01-01 to the start of `year`. */
  function DaysBeforeYear(year: int): int {
    var p := year - 1;
    365 * p + p / 4 - p / 100 + p / 400
  }

  /** Consecutive years are `YearLength` days apart. */
  lemma YearStep(year: int)
    ensures DaysBeforeYear(year + 1) == DaysBeforeYear(year) + YearLength(year)
  {
    StepOver4(year);
    StepOver100(year);
    StepOver400(year);
  }

  /** Moving from `year - 1` to `year` passes a multiple of 4, 100 or 400
      exactly when `year` is one. */
  lemma StepOver4(year: int)
    ensures year / 4 - (year - 1) / 4 == if year % 4 == 0 then 1 else 0
  {
  }

  lemma StepOver100(year: int)
    ensures year / 100 - (year - 1) / 100 == if year % 100 == 0 then 1 else 0
  {
  }

  lemma StepOver400(year: int)
    ensures year / 400 - (year - 1) / 400 == if year % 400 == 0 then 1 else 0
  {
  }

  /** The day number of a date counted from 0001-01-01 (= 1). */
  function Ordinal(d: CalendarDate): int {
    DaysBeforeYear(d.year) + DayOfYear(d)
  }

  /** Calendar.DAY_OF_WEEK minus one: 0 = Sunday .. 6 = Saturday. Day 1,
      0001-01-01, was a Monday. */
  function Weekday(ordinal: int): (w: int)
    ensures 0 <= w < 7
  {
    ordinal % 7
  }

  /** The weekday of January 1 of `year`. */
  function Jan1Weekday(year: int): (w: int)
    ensures 0 <= w < 7
  {
    Weekday(DaysBeforeYear(year) + 1)
  }

  /** The following day. */
  function Next(d: CalendarDate): (r: CalendarDate)
    ensures r.day == d.day + 1 || (r.day == 1 && d.day == MonthLength(d.year, d.month))
  {
    MonthTable(d.year, d.month);
    if d.day < MonthLength(d.year, d.month) then Date(d.year, d.month, d.day + 1)
    else if d.month < 12 then Date(d.year, d.month + 1, 1)
    else
      YearStep(d.year);
      Date(d.year + 1, 1, 1)
  }

  /** The date `k` days later. */
  function Advance(d: CalendarDate, k: nat): CalendarDate {
    if k == 0 then d else Next(Advance(d, k - 1))
  }

  /** The next day has the next day count. */
  lemma NextOrdinal(d: CalendarDate)
    ensures Ordinal(Next(d)) == Ordinal(d) + 1
  {
    MonthTable(d.year, d.month);
    if d.month == 12 && d.day == MonthLength(d.year, 12) {
      YearStep(d.year);
    }
  }

  /** `k` steps forward add `k` to the day count. */
  lemma {:induction false} AdvanceOrdinal(d: CalendarDate, k: nat)
    ensures Ordinal(Advance(d, k)) == Ordinal(d) + k
  {
    if k > 0 {
      AdvanceOrdinal(d, k - 1);
      NextOrdinal(Advance(d, k - 1));
    }
  }

  /** Within a month, `k` days later is `k` more on the day of the month. */
  lemma {:induction false} AdvanceInMonth(d: CalendarDate, k: nat)
    requires d.day + k <= MonthLength(d.year, d.month)
    ensures Advance(d, k) == Date(d.year, d.month, d.day + k)
  {
    if k > 0 {
      var e := Advance(d, k - 1);
      AdvanceInMonth(d, k - 1);
      assert e == Date(d.year, d.month, d.day + k - 1);
      NextInMonth(e);
      assert Advance(d, k) == Next(e);
    }
  }

  /** From late December, counting on past the 31st lands in January of
      the following year. */
  lemma {:induction false} AdvanceIntoNewYear(d: CalendarDate, k: nat)
    requires d.month == 12 && 31 < d.day + k <= 62
    ensures Advance(d, k) == Date(d.year + 1, 1, d.day + k - 31)
  {
    var e := Advance(d, k - 1);
    if d.day + k == 32 {
      AdvanceInMonth(d, k - 1);
      assert e == Date(d.year, 12, 31);
      NextNewYear(e);
    } else {
      AdvanceIntoNewYear(d, k - 1);
      assert e == Date(d.year + 1, 1, d.day + k - 32);
      NextInMonth(e);
    }
    assert Advance(d, k) == Next(e);
  }

  /** Counting on past the end of a month other than December lands in
      the following month of the same year. */
  lemma {:induction false} AdvanceIntoNextMonth(d: CalendarDate, k: nat)
    requires d.month < 12
    requires MonthLength(d.year, d.month) < d.day + k
    requires d.day + k - MonthLength(d.year, d.month) <= MonthLength(d.year, d.month + 1)
    ensures Advance(d, k) == Date(d.year, d.month + 1, d.day + k - MonthLength(d.year, d.month))
  {
    var len := MonthLength(d.year, d.month);
    var e := Advance(d, k - 1);
    if d.day + k == len + 1 {
      AdvanceInMonth(d, k - 1);
      assert e == Date(d.year, d.month, len);
      NextMonth(e);
    } else {
      AdvanceIntoNextMonth(d, k - 1);
      assert e == Date(d.year, d.month + 1, d.day + k - 1 - len);
      NextInMonth(e);
    }
    assert Advance(d, k) == Next(e);
  }

  /** The day after the last of a month other than December is the first
      of the next month. */
  lemma NextMonth(d: CalendarDate)
    requires d.month < 12 && d.day == MonthLength(d.year, d.month)
    ensures Next(d) == Date(d.year, d.month + 1, 1)
  {
  }

  /** Inside a month the next day is one more on the day of the month. */
  lemma NextInMonth(d: CalendarDate)
    requires d.day < MonthLength(d.year, d.month)
    ensures Next(d) == Date(d.year, d.month, d.day + 1)
  {
  }

  /** The day after December 31 is January 1 of the following year. */
  lemma NextNewYear(d: CalendarDate)
    requires d.month == 12 && d.day == 31
    ensures Next(d) == Date(d.year + 1, 1, 1)
  {
  }

  /** Every date of `year` lies after the start of the year and no later
      than the start of the next one. */
  lemma OrdinalWithinYear(d: CalendarDate)
    ensures DaysBeforeYear(d.year) < Ordinal(d) <= DaysBeforeYear(d.year + 1)
  {
    YearStep(d.year);
  }

  /** Year starts increase with the year. */
  lemma {:induction false} DaysBeforeYearMonotone(a: int, b: int)
    requires a <= b
    ensures DaysBeforeYear(a) <= DaysBeforeYear(b)
    decreases b - a
  {
    if a < b {
      YearStep(a);
      DaysBeforeYearMonotone(a + 1, b);
    }
  }

  /** Different dates have different day numbers. */
  lemma OrdinalInjective(a: CalendarDate, b: CalendarDate)
    requires Ordinal(a) == Ordinal(b)
    ensures a == b
  {
    if a.year != b.year {
      var (lo, hi) := if a.year < b.year then (a, b) else (b, a);
      OrdinalWithinYear(lo);
      OrdinalWithinYear(hi);
      DaysBeforeYearMonotone(lo.year + 1, hi.year);
      assert false;
    }
    assert DayOfYear(a) == DayOfYear(b);
    FromDayOfYearRoundTrip(a);
    FromDayOfYearRoundTrip(b);
  }

  /** The date `offset` days after January 1 of `year`; a negative offset
      reaches back into earlier years, a large one into later years. */
  function Locate(year: int, offset: int): (d: CalendarDate)
    ensures Ordinal(d) == DaysBeforeYear(year) + 1 + offset
    decreases if offset < 0 then 400 - offset else offset
  {
    if offset < 0 then
      YearStep(year - 1);
      Locate(year - 1, offset + YearLength(year - 1))
    else if offset >= YearLength(year) then
      YearStep(year);
      Locate(year + 1, offset - YearLength(year))
    else
      FromDayOfYear(year, offset + 1)
  }

  /** Position of a date in the grid of Sunday-first weeks that starts on
      the Sunday on or before January 1 of its year. */
  function WeekIndex(d: CalendarDate): int {
    DayOfYear(d) - 1 + Jan1Weekday(d.year)
  }

  /** The date shares its week with January 1 of the following year, so
      Calendar.WEEK_OF_YEAR reports it as week 1 (minimal days in first
      week = 1). */
  predicate InNextYearsFirstWeek(d: CalendarDate) {
    WeekIndex(d) / 7 == (YearLength(d.year) + Jan1Weekday(d.year)) / 7
  }

  /** Calendar.WEEK_OF_YEAR with Sunday as first day of the week and one
      minimal day in the first week. */
  function WeekOfYear(d: CalendarDate): (w: int)
    ensures 1 <= w <= 53
  {
    if InNextYearsFirstWeek(d) then 1 else WeekIndex(d) / 7 + 1
  }

  /** The Sunday that starts week `week` of `year`: the Sunday on or before
      January 1 when `week` is 1, and whole weeks from there for any other
      (also zero, negative or past-the-end) week number. */
  function WeekStart(year: int, week: int): (d: CalendarDate)
    ensures Ordinal(d) == SundayOfWeek(year, week)
    ensures Weekday(Ordinal(d)) == 0
  {
    SundayOnOrBefore(DaysBeforeYear(year) + 1, week - 1);
    Locate(year, 7 * (week - 1) - Jan1Weekday(year))
  }

  /** The day count of the Sunday that starts week `week` of `year`. */
  function SundayOfWeek(year: int, week: int): int {
    var jan1 := DaysBeforeYear(year) + 1;
    jan1 - Weekday(jan1) + 7 * (week - 1)
  }

  /** Stepping back to the previous Sunday and then by whole weeks lands on
      a Sunday. */
  lemma SundayOnOrBefore(x: int, weeks: int)
    ensures Weekday(x - Weekday(x) + 7 * weeks) == 0
  {
    var q := x / 7;
    assert x - x % 7 + 7 * weeks == 7 * (q + weeks);
  }

  /** The year whose week numbering `WeekOfYear` uses for a date. */
  function WeekYear(d: CalendarDate): int {
    if InNextYearsFirstWeek(d) then d.year + 1 else d.year
  }

  /** Week numbering and week starts agree: a date lies in the seven days
      that begin at the start of its numbered week, and it is the day of
      that week given by its weekday. */
  lemma WeekOfYearContainsDate(d: CalendarDate)
    ensures var start := WeekStart(WeekYear(d), WeekOfYear(d));
            && Ordinal(start) <= Ordinal(d) < Ordinal(start) + 7
            && Advance(start, Weekday(Ordinal(d))) == d
  {
    var jan1 := DaysBeforeYear(d.year) + 1;
    var idx := WeekIndex(d);
    var start := WeekStart(WeekYear(d), WeekOfYear(d));
    assert Ordinal(d) == jan1 - Weekday(jan1) + idx;
    NumberedWeekStart(d);
    InWeekOfGrid(Ordinal(d), Ordinal(start), jan1, idx);
    var k := Weekday(Ordinal(d));
    AdvanceOrdinal(start, k);
    OrdinalInjective(Advance(start, k), d);
  }

  /** The numbered week of a date starts `idx / 7` whole weeks after the
      Sunday on or before January 1 of the date's year, `idx` being its
      position in that year's grid. */
  lemma NumberedWeekStart(d: CalendarDate)
    ensures var jan1 := DaysBeforeYear(d.year) + 1;
            SundayOfWeek(WeekYear(d), WeekOfYear(d)) == jan1 - Weekday(jan1) + 7 * (WeekIndex(d) / 7)
  {
    if InNextYearsFirstWeek(d) {
      NextYearsFirstWeekStart(d.year, WeekIndex(d));
    }
  }

  /** Week 1 of the next year starts in week `idx / 7` of the grid of
      `year` when position `idx` shares its week with January 1 of the next
      year. */
  lemma NextYearsFirstWeekStart(year: int, idx: int)
    requires idx / 7 == (YearLength(year) + Jan1Weekday(year)) / 7
    ensures var jan1 := DaysBeforeYear(year) + 1;
            SundayOfWeek(year + 1, 1) == jan1 - Weekday(jan1) + 7 * (idx / 7)
  {
    YearStep(year);
    GridOfNextYear(DaysBeforeYear(year) + 1, YearLength(year), DaysBeforeYear(year + 1) + 1, idx);
  }

  /** When position `idx` of the grid from day `x` falls in the same week
      as day `next`, `len` days on, the Sunday on or before `next` starts
      that week. */
  lemma GridOfNextYear(x: int, len: int, next: int, idx: int)
    requires next == x + len
    requires idx / 7 == (len + Weekday(x)) / 7
    ensures next - Weekday(next) == x - Weekday(x) + 7 * (idx / 7)
  {
    NextYearGrid(x, len);
  }

  /** In the grid of weeks starting on the Sunday on or before day `x`, the
      day at position `idx` lies in week `idx / 7` and has weekday
      `idx mod 7`. */
  lemma Grid(x: int, idx: int)
    ensures var base := x - Weekday(x);
            var first := base + 7 * (idx / 7);
            && first <= base + idx < first + 7
            && first + Weekday(base + idx) == base + idx
  {
    var q := x / 7;
    assert x - x % 7 == 7 * q;
    assert 7 * q + idx == 7 * (q + idx / 7) + idx % 7;
  }

  /** Day count `o` at position `idx` of the grid that starts on the Sunday
      on or before day `x` lies in the week that starts at `s`, as its day
      `Weekday(o)`. */
  lemma InWeekOfGrid(o: int, s: int, x: int, idx: int)
    requires o == x - Weekday(x) + idx
    requires s == x - Weekday(x) + 7 * (idx / 7)
    ensures s <= o < s + 7 && s + Weekday(o) == o
  {
    Grid(x, idx);
  }

  /** The Sunday on or before January 1 of the next year, seen from the
      grid of the current year (`len` days long). */
  lemma NextYearGrid(x: int, len: int)
    ensures (x + len) - Weekday(x + len) == x - Weekday(x) + 7 * ((len + Weekday(x)) / 7)
  {
    var q := x / 7;
    assert x == 7 * q + x % 7;
    var j := len + x % 7;
    assert j == 7 * (j / 7) + j % 7;
    assert x + len == 7 * (q + j / 7) + j % 7;
  }

  /** Before December 31 the next day is the next day of the same year. */
  lemma NextWithinYear(d: CalendarDate)
    requires !(d.month == 12 && d.day == 31)
    ensures Next(d).year == d.year && DayOfYear(Next(d)) == DayOfYear(d) + 1
  {
    MonthTable(d.year, d.month);
  }

  /** Calendar.roll(DAY_OF_YEAR, 1): the next day of the same year, with
      the last day of the year wrapping to January 1 of that same year. */
  function RollDayOfYear(d: CalendarDate): (r: CalendarDate)
    ensures r.year == d.year
    ensures d.month == 12 && d.day == 31 ==> r == Date(d.year, 1, 1)
    ensures !(d.month == 12 && d.day == 31) ==> r == Next(d)
  {
    var n := DayOfYear(d);
    MonthTable(d.year, d.month);
    var r := FromDayOfYear(d.year, if n == YearLength(d.year) then 1 else n + 1);
    if d.month == 12 && d.day == 31 then
      assert n == YearLength(d.year);
      assert DayOfYear(r) == DayOfYear(Date(d.year, 1, 1));
      FromDayOfYearRoundTrip(r);
      FromDayOfYearRoundTrip(Date(d.year, 1, 1));
      r
    else
      NextWithinYear(d);
      FromDayOfYearRoundTrip(r);
      FromDayOfYearRoundTrip(Next(d));
      r
  }
}
