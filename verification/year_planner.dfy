/** YearPlanner.java: day and week numbers for one year, from date strings
    or month-day pairs, and the days of the month that make up a numbered
    week. java.util.Calendar is replaced by the Gregorian module, with
    Sunday-first weeks and week 1 the week that contains January 1. */
module YearPlanners {
  import opened Results
  import opened Gregorian
  import opened DateFormats

  /** YearPlanner's own `SIMPLE_DATE_FORMAT`: yyyy-MM-dd, left lenient (the
      class never calls `setLenient(false)` on it). */
  const PLANNER_DATE_FORMAT: DateFormat := SimpleDateFormat("yyyy-MM-dd", true)

  /** A planner: the `short` year `mYear` and the format `mDateFormat`. */
  datatype YearPlanner = YearPlanner(year: int, format: DateFormat)

  /** The one-argument constructor: a year outside the `short` range throws,
      the bounds themselves are accepted. */
  function New(year: int): (r: Result<YearPlanner>)
    ensures r.Err? <==> !IsShort(year)
    ensures r.Err? ==> r.error == IllegalArgument
    ensures r.Ok? ==> r.value == YearPlanner(year, PLANNER_DATE_FORMAT)
  {
    if year > SHORT_MAX || year < SHORT_MIN then Err(IllegalArgument)
    else Ok(YearPlanner(year, PLANNER_DATE_FORMAT))
  }

  /** The constructor with a format: a null format throws, and so does a
      year outside the `short` range. */
  function NewWithFormat(year: int, format: Option<DateFormat>): (r: Result<YearPlanner>)
    ensures r.Err? <==> format.None? || !IsShort(year)
    ensures r.Err? ==> r.error == IllegalArgument
    ensures r.Ok? ==> r.value == YearPlanner(year, format.value)
  {
    match format
    case None => Err(IllegalArgument)
    case Some(f) =>
      if year > SHORT_MAX || year < SHORT_MIN then Err(IllegalArgument)
      else Ok(YearPlanner(year, f))
  }

  /** The static `getDayNumber(Calendar)`: null throws; otherwise the day of
      the year of the calendar's own year, which falls within the days of that
      date's month. */
  function DayNumberOf(cal: Option<CalendarDate>): (r: Result<int>)
    ensures r.Err? <==> cal.None?
    ensures r.Err? ==> r.error == IllegalArgument
    ensures r.Ok? ==> 1 <= r.value <= YearLength(cal.value.year)
    ensures r.Ok? ==>
              DaysBeforeMonth(cal.value.year, cal.value.month) < r.value
              <= DaysBeforeMonth(cal.value.year, cal.value.month + 1)
  {
    match cal
    case None => Err(IllegalArgument)
    case Some(d) => Ok(DayOfYear(d))
  }

  /** A day number and the year give the date back. */
  lemma DayNumberRoundTrip(d: CalendarDate)
    ensures DayNumberOf(Some(d)).Ok?
    ensures FromDayOfYear(d.year, DayNumberOf(Some(d)).value) == d
  {
    FromDayOfYearRoundTrip(d);
  }

  /** The static `getWeekNumber(Calendar)`: null throws; otherwise the
      number of the Sunday-first week that contains the date, counted in the
      date's own year, except that the days sharing a week with the next
      January 1 are in week 1. */
  function WeekNumberOf(cal: Option<CalendarDate>): (r: Result<int>)
    ensures r.Err? <==> cal.None?
    ensures r.Err? ==> r.error == IllegalArgument
    ensures r.Ok? ==> 1 <= r.value <= 53
    ensures r.Ok? ==>
              var start := WeekStart(WeekYear(cal.value), r.value);
              Ordinal(start) <= Ordinal(cal.value) < Ordinal(start) + 7
  {
    match cal
    case None => Err(IllegalArgument)
    case Some(d) =>
      WeekOfYearContainsDate(d);
      Ok(WeekOfYear(d))
  }

  /** `validate_month_day_pair`: a structural range check only; no month
      length is consulted, so (2, 30) passes. */
  function ValidateMonthDayPair(month: int, day: int): (ok: bool)
    ensures ok <==> 1 <= month <= 12 && 1 <= day <= 31
  {
    !(1 > month || month > 12) && !(1 > day || day > 31)
  }

  /** `getCalendar`: a pair failing validation throws. Otherwise the lenient
      Calendar.Builder lands `day - 1` days after the first of `month` in the
      planner's year; a day past the end of its month rolls into the next
      month, never into the next year. */
  function GetCalendar(p: YearPlanner, month: int, day: int): (r: Result<CalendarDate>)
    ensures r.Err? <==> !ValidateMonthDayPair(month, day)
    ensures r.Err? ==> r.error == IllegalArgument
    ensures r.Ok? ==> r.value.year == p.year
    ensures r.Ok? ==> DayOfYear(r.value) == DaysBeforeMonth(p.year, month) + day
    ensures r.Ok? && ValidDate(Date(p.year, month, day)) ==> r.value == Date(p.year, month, day)
  {
    if !ValidateMonthDayPair(month, day) then Err(IllegalArgument)
    else
      MonthTable(p.year, month);
      var len := MonthLength(p.year, month);
      if day <= len then Ok(Date(p.year, month, day))
      else Ok(Date(p.year, month + 1, day - len))
  }

  /** `parseDateString`: null throws, and so does a string the planner's
      format rejects; otherwise the parsed date. */
  function ParseDateString(p: YearPlanner, parse: Parser, s: Option<string>): (r: Result<CalendarDate>)
    ensures r.Err? <==> s.None? || parse(p.format, s.value).None?
    ensures r.Err? ==> r.error == IllegalArgument
    ensures r.Ok? ==> parse(p.format, s.value) == Some(r.value)
  {
    match s
    case None => Err(IllegalArgument)
    case Some(str) =>
      match parse(p.format, str)
      case None => Err(IllegalArgument)
      case Some(d) => Ok(d)
  }

  /** `getDayNumber(String)`: the day of the year of the parsed date, in the
      parsed date's own year; null and unparsable strings throw. */
  function DayNumberOfString(p: YearPlanner, parse: Parser, s: Option<string>): (r: Result<int>)
    ensures r.Err? <==> s.None? || parse(p.format, s.value).None?
    ensures r.Err? ==> r.error == IllegalArgument
    ensures r.Ok? ==>
              r == DayNumberOf(parse(p.format, s.value))
  {
    if s.None? then Err(IllegalArgument)
    else match ParseDateString(p, parse, s)
      case Err(e) => Err(e)
      case Ok(d) => DayNumberOf(Some(d))
  }

  /** `getDayNumber(int, int)`: an invalid pair throws; otherwise the number
      of days from January 1 of the planner's year, counting both ends. */
  function DayNumber(p: YearPlanner, month: int, day: int): (r: Result<int>)
    ensures r.Err? <==> !ValidateMonthDayPair(month, day)
    ensures r.Err? ==> r.error == IllegalArgument
    ensures r.Ok? ==> 1 <= r.value <= YearLength(p.year)
    ensures r.Ok? ==> r.value == DaysBeforeMonth(p.year, month) + day
  {
    match GetCalendar(p, month, day)
    case Err(e) => Err(e)
    case Ok(c) => DayNumberOf(Some(c))
  }

  /** `getWeekNumber(String)`: the week number of the parsed date; null and
      unparsable strings throw. */
  function WeekNumberOfString(p: YearPlanner, parse: Parser, s: Option<string>): (r: Result<int>)
    ensures r.Err? <==> s.None? || parse(p.format, s.value).None?
    ensures r.Err? ==> r.error == IllegalArgument
    ensures r.Ok? ==>
              var d := parse(p.format, s.value).value;
              var start := WeekStart(WeekYear(d), r.value);
              1 <= r.value <= 53 && Ordinal(start) <= Ordinal(d) < Ordinal(start) + 7
  {
    if s.None? then Err(IllegalArgument)
    else match ParseDateString(p, parse, s)
      case Err(e) => Err(e)
      case Ok(d) => WeekNumberOf(Some(d))
  }

  /** `getWeekNumber(int, int)`: an invalid pair throws; otherwise the
      number of the week containing that (leniently built) date. */
  function WeekNumber(p: YearPlanner, month: int, day: int): (r: Result<int>)
    ensures r.Err? <==> !ValidateMonthDayPair(month, day)
    ensures r.Err? ==> r.error == IllegalArgument
    ensures r.Ok? ==>
              var d := GetCalendar(p, month, day).value;
              var start := WeekStart(WeekYear(d), r.value);
              1 <= r.value <= 53 && Ordinal(start) <= Ordinal(d) < Ordinal(start) + 7
  {
    match GetCalendar(p, month, day)
    case Err(e) => Err(e)
    case Ok(c) => WeekNumberOf(Some(c))
  }

  /** Reference for `getDayArray`: the days of the month of the seven
      consecutive days that begin on the Sunday starting week `week`. */
  function WeekDays(year: int, week: int): (days: seq<int>)
    ensures |days| == 7
  {
    var start := WeekStart(year, week);
    seq(7, i requires 0 <= i < 7 => Advance(start, i).day)
  }

  /** `getDayArray`: build the Sunday of week `weekNumber`, then step with
      `roll(DAY_OF_YEAR, 1)`, which wraps within the year instead of
      entering the next one. The days of the month come out the same as
      when stepping through real days: each entry is the previous one plus
      one, or 1 after the last day of a month. */
  method GetDayArray(p: YearPlanner, weekNumber: int) returns (days: seq<int>)
    requires -128 <= weekNumber <= 127
    ensures days == WeekDays(p.year, weekNumber)
    ensures days[0] == WeekStart(p.year, weekNumber).day
    ensures forall i | 1 <= i < 7 :: days[i] == days[i - 1] + 1 || days[i] == 1
  {
    var start := WeekStart(p.year, weekNumber);
    var cal := start;
    days := [cal.day];
    var i := 1;
    while i < 7
      invariant 1 <= i <= 7
      invariant |days| == i
      invariant days == DaysFrom(start, i)
      invariant Tracks(cal, Advance(start, i - 1), i - 1)
    {
      RollAlong(start, cal, i);
      cal := RollDayOfYear(cal);
      days := days + [cal.day];
      i := i + 1;
    }
    DaysOfWeek(p.year, weekNumber, days);
    WeekDaysConsecutive(p.year, weekNumber);
  }

  /** One step of `getDayArray`: rolling the calendar keeps it in step with
      the `i`-th day from the week's start. */
  lemma RollAlong(start: CalendarDate, cal: CalendarDate, i: int)
    requires 1 <= i < 7
    requires Tracks(cal, Advance(start, i - 1), i - 1)
    ensures Tracks(RollDayOfYear(cal), Advance(start, i), i)
    ensures RollDayOfYear(cal).day == Advance(start, i).day
  {
    RollStep(cal, Advance(start, i - 1), i - 1);
    assert Advance(start, i) == Next(Advance(start, i - 1));
  }

  /** The days of the month of the first `n` days from `start`, built one
      at a time as `getDayArray` fills its array. */
  function DaysFrom(start: CalendarDate, n: nat): (days: seq<int>)
    ensures |days| == n
    ensures forall j | 0 <= j < n :: days[j] == Advance(start, j).day
  {
    if n == 0 then [] else DaysFrom(start, n - 1) + [Advance(start, n - 1).day]
  }

  /** Seven days built one at a time are the week's days. */
  lemma DaysOfWeek(year: int, week: int, days: seq<int>)
    requires days == DaysFrom(WeekStart(year, week), 7)
    ensures days == WeekDays(year, week)
  {
  }

  /** Consecutive entries of a week's days of the month go up by one, or
      restart at 1 on the first of a month. */
  lemma WeekDaysConsecutive(year: int, week: int)
    ensures var days := WeekDays(year, week);
            forall i | 1 <= i < 7 :: days[i] == days[i - 1] + 1 || days[i] == 1
  {
    var start := WeekStart(year, week);
    forall i | 1 <= i < 7
      ensures Advance(start, i).day == Advance(start, i - 1).day + 1 || Advance(start, i).day == 1
    {
      assert Advance(start, i) == Next(Advance(start, i - 1));
    }
  }

  /** The rolled calendar `cal` and the actual date agree on the day of the
      month: either they are the same date, or the roll wrapped back to
      January of the same year while the actual date went on into January
      of the next, at most `k` days ago. */
  predicate Tracks(cal: CalendarDate, actual: CalendarDate, k: int) {
    || cal == actual
    || (cal.year + 1 == actual.year && cal.month == 1 == actual.month
        && cal.day == actual.day && cal.day <= k)
  }

  /** One more roll keeps the rolled calendar in step with the actual date. */
  lemma RollStep(cal: CalendarDate, actual: CalendarDate, k: int)
    requires 0 <= k <= 5
    requires Tracks(cal, actual, k)
    ensures Tracks(RollDayOfYear(cal), Next(actual), k + 1)
  {
  }

  /** The day array of a date's week shows the date's day of the month at
      the position of its weekday (0 = Sunday). */
  lemma DayArrayContainsDate(d: CalendarDate)
    ensures WeekDays(WeekYear(d), WeekOfYear(d))[Weekday(Ordinal(d))] == d.day
  {
    WeekOfYearContainsDate(d);
  }

  /** The construction bounds: exactly the `short` range is accepted. */
  lemma ConstructorBounds()
    ensures New(32767).Ok? && New(-32768).Ok?
    ensures New(32768) == Err(IllegalArgument) && New(-32769) == Err(IllegalArgument)
    ensures NewWithFormat(2025, None) == Err(IllegalArgument)
  {
  }

  /** The first and the last day of 2025 by month-day pair. */
  lemma DayNumbers2025()
    ensures var p := YearPlanner(2025, PLANNER_DATE_FORMAT);
            && DayNumber(p, 1, 1) == Ok(1)
            && DayNumber(p, 12, 31) == Ok(365)
  {
    assert !IsLeapYear(2025);
    assert DaysBeforeMonth(2025, 12) == 334;
  }

  /** A zero month or a zero day is turned away by the pair validation,
      both when building the calendar and when numbering the day. */
  lemma ZeroMonthOrDayThrows()
    ensures var p := YearPlanner(2025, PLANNER_DATE_FORMAT);
            && GetCalendar(p, 0, 1) == Err(IllegalArgument)
            && GetCalendar(p, 1, 0) == Err(IllegalArgument)
            && DayNumber(p, 0, 1) == Err(IllegalArgument)
            && DayNumber(p, 1, 0) == Err(IllegalArgument)
  {
  }

  /** The lenient builder: February 30 of the common year 2025 is March 2,
      day 61. */
  lemma LenientFebruary30()
    ensures var p := YearPlanner(2025, PLANNER_DATE_FORMAT);
            && GetCalendar(p, 2, 30) == Ok(Date(2025, 3, 2))
            && DayNumber(p, 2, 30) == Ok(61)
  {
    assert !IsLeapYear(2025);
    assert DaysBeforeMonth(2025, 2) == 31;
    assert MonthLength(2025, 2) == 28;
  }

  /** For a pair naming a real date of the planner's year, the week number
      is that date's Calendar.WEEK_OF_YEAR. */
  lemma WeekNumberOfDate(p: YearPlanner, month: int, day: int)
    requires ValidDate(Date(p.year, month, day))
    ensures WeekNumber(p, month, day) == Ok(WeekOfYear(Date(p.year, month, day)))
  {
  }

  /** Week numbers in 2025: January 1 is a Wednesday, so week 2 starts on
      January 5, and December 28 starts week 1 of 2026. */
  lemma WeekNumbers2025()
    ensures var p := YearPlanner(2025, PLANNER_DATE_FORMAT);
            && WeekNumber(p, 1, 1) == Ok(1)
            && WeekNumber(p, 1, 4) == Ok(1)
            && WeekNumber(p, 1, 5) == Ok(2)
            && WeekNumber(p, 1, 12) == Ok(3)
            && WeekNumber(p, 12, 27) == Ok(52)
            && WeekNumber(p, 12, 31) == Ok(1)
            && WeekNumber(p, 13, 1) == Err(IllegalArgument)
  {
    var p := YearPlanner(2025, PLANNER_DATE_FORMAT);
    WeeksOf2025();
    WeekNumberOfDate(p, 1, 1);
    WeekNumberOfDate(p, 1, 4);
    WeekNumberOfDate(p, 1, 5);
    WeekNumberOfDate(p, 1, 12);
    WeekNumberOfDate(p, 12, 27);
    WeekNumberOfDate(p, 12, 31);
  }

  /** Calendar.WEEK_OF_YEAR of a few dates of 2025. */
  lemma WeeksOf2025()
    ensures WeekOfYear(Date(2025, 1, 1)) == 1
    ensures WeekOfYear(Date(2025, 1, 4)) == 1
    ensures WeekOfYear(Date(2025, 1, 5)) == 2
    ensures WeekOfYear(Date(2025, 1, 12)) == 3
    ensures WeekOfYear(Date(2025, 12, 27)) == 52
    ensures WeekOfYear(Date(2025, 12, 31)) == 1
  {
    NewYear2025();
    assert DaysBeforeMonth(2025, 12) == 334;
    assert (365 + 3) / 7 == 52;
    assert WeekIndex(Date(2025, 1, 1)) == 3;
    assert WeekIndex(Date(2025, 1, 4)) == 6;
    assert WeekIndex(Date(2025, 1, 5)) == 7;
    assert WeekIndex(Date(2025, 1, 12)) == 14;
    assert WeekIndex(Date(2025, 12, 27)) == 363;
    assert WeekIndex(Date(2025, 12, 31)) == 367;
  }

  /** Week 1 of 2025 starts on Sunday, December 29, 2024, and its days of
      the month run on into January. */
  lemma FirstWeekOf2025()
    ensures WeekStart(2025, 1) == Date(2024, 12, 29)
    ensures WeekDays(2025, 1) == [29, 30, 31, 1, 2, 3, 4]
  {
    FirstSundayOf2025();
    TurnOf2025();
    WeekFromStart(2025, 1, Date(2024, 12, 29), 29, 30, 31, 1, 2, 3, 4);
  }

  /** The Sunday on or before January 1, 2025. */
  lemma FirstSundayOf2025()
    ensures WeekStart(2025, 1) == Date(2024, 12, 29)
  {
    NewYear2025();
    assert DaysBeforeMonth(2024, 12) == 335;
    assert MonthContaining(2024, 364, 12) == 12;
    assert FromDayOfYear(2024, 364) == Date(2024, 12, 29);
    assert Locate(2025, -3) == Locate(2024, 363);
  }

  /** The seven days from Sunday, December 29, 2024. */
  lemma TurnOf2025()
    ensures var start := Date(2024, 12, 29);
            && Advance(start, 1) == Date(2024, 12, 30)
            && Advance(start, 2) == Date(2024, 12, 31)
            && Advance(start, 3) == Date(2025, 1, 1)
            && Advance(start, 4) == Date(2025, 1, 2)
            && Advance(start, 5) == Date(2025, 1, 3)
            && Advance(start, 6) == Date(2025, 1, 4)
  {
    var start := Date(2024, 12, 29);
    AdvanceInMonth(start, 1);
    AdvanceInMonth(start, 2);
    AdvanceIntoNewYear(start, 3);
    AdvanceIntoNewYear(start, 4);
    AdvanceIntoNewYear(start, 5);
    AdvanceIntoNewYear(start, 6);
  }

  /** Week 53 of 2025 starts on Sunday, December 28; rolling within the
      year wraps to January of 2025, and the days of the month are still
      those of the first days of 2026. */
  lemma LastWeekOf2025()
    ensures WeekStart(2025, 53) == Date(2025, 12, 28)
    ensures WeekDays(2025, 53) == [28, 29, 30, 31, 1, 2, 3]
  {
    LastSundayOf2025();
    TurnOf2026();
    WeekFromStart(2025, 53, Date(2025, 12, 28), 28, 29, 30, 31, 1, 2, 3);
  }

  /** The Sunday that starts week 53 of 2025. */
  lemma LastSundayOf2025()
    ensures WeekStart(2025, 53) == Date(2025, 12, 28)
  {
    NewYear2025();
    assert DaysBeforeMonth(2025, 12) == 334;
    assert MonthContaining(2025, 362, 12) == 12;
    assert FromDayOfYear(2025, 362) == Date(2025, 12, 28);
  }

  /** The seven days from Sunday, December 28, 2025. */
  lemma TurnOf2026()
    ensures var start := Date(2025, 12, 28);
            && Advance(start, 1) == Date(2025, 12, 29)
            && Advance(start, 2) == Date(2025, 12, 30)
            && Advance(start, 3) == Date(2025, 12, 31)
            && Advance(start, 4) == Date(2026, 1, 1)
            && Advance(start, 5) == Date(2026, 1, 2)
            && Advance(start, 6) == Date(2026, 1, 3)
  {
    var start := Date(2025, 12, 28);
    AdvanceInMonth(start, 1);
    AdvanceInMonth(start, 2);
    AdvanceInMonth(start, 3);
    AdvanceIntoNewYear(start, 4);
    AdvanceIntoNewYear(start, 5);
    AdvanceIntoNewYear(start, 6);
  }

  /** Week 18 of 2025 starts on Sunday, April 27, and rolls across the end
      of April into May. */
  lemma Week18Of2025()
    ensures WeekStart(2025, 18) == Date(2025, 4, 27)
    ensures WeekDays(2025, 18) == [27, 28, 29, 30, 1, 2, 3]
  {
    Week18Sunday();
    var start := Date(2025, 4, 27);
    AdvanceInMonth(start, 1);
    AdvanceInMonth(start, 2);
    AdvanceInMonth(start, 3);
    AdvanceIntoNextMonth(start, 4);
    AdvanceIntoNextMonth(start, 5);
    AdvanceIntoNextMonth(start, 6);
    WeekFromStart(2025, 18, start, 27, 28, 29, 30, 1, 2, 3);
  }

  /** The Sunday that starts week 18 of 2025. */
  lemma Week18Sunday()
    ensures WeekStart(2025, 18) == Date(2025, 4, 27)
  {
    NewYear2025();
    assert DaysBeforeMonth(2025, 4) == 90 && DaysBeforeMonth(2025, 5) == 120;
    assert MonthContaining(2025, 117, 12) == 4;
    assert FromDayOfYear(2025, 117) == Date(2025, 4, 27);
  }

  /** Week 52 of 2025 runs from Sunday, December 21, to Saturday,
      December 27, inside one month. */
  lemma Week52Of2025()
    ensures WeekStart(2025, 52) == Date(2025, 12, 21)
    ensures WeekDays(2025, 52) == [21, 22, 23, 24, 25, 26, 27]
  {
    Week52Sunday();
    var start := Date(2025, 12, 21);
    AdvanceInMonth(start, 1);
    AdvanceInMonth(start, 2);
    AdvanceInMonth(start, 3);
    AdvanceInMonth(start, 4);
    AdvanceInMonth(start, 5);
    AdvanceInMonth(start, 6);
    WeekFromStart(2025, 52, start, 21, 22, 23, 24, 25, 26, 27);
  }

  /** The Sunday that starts week 52 of 2025. */
  lemma Week52Sunday()
    ensures WeekStart(2025, 52) == Date(2025, 12, 21)
  {
    NewYear2025();
    assert DaysBeforeMonth(2025, 12) == 334;
    assert MonthContaining(2025, 355, 12) == 12;
    assert FromDayOfYear(2025, 355) == Date(2025, 12, 21);
  }

  /** A week's days of the month, read off seven steps from its start. */
  lemma WeekFromStart(year: int, week: int, start: CalendarDate,
                      d0: int, d1: int, d2: int, d3: int, d4: int, d5: int, d6: int)
    requires WeekStart(year, week) == start
    requires start.day == d0 && Advance(start, 1).day == d1
    requires Advance(start, 2).day == d2 && Advance(start, 3).day == d3
    requires Advance(start, 4).day == d4 && Advance(start, 5).day == d5
    requires Advance(start, 6).day == d6
    ensures WeekDays(year, week) == [d0, d1, d2, d3, d4, d5, d6]
  {
    var days := WeekDays(year, week);
    var expected := [d0, d1, d2, d3, d4, d5, d6];
    assert days[0] == expected[0] && days[1] == expected[1] && days[2] == expected[2];
    assert days[3] == expected[3] && days[4] == expected[4];
    assert days[5] == expected[5] && days[6] == expected[6];
    SameWeek(days, expected);
  }

  /** Two weeks of days agree when they agree at every position. */
  lemma SameWeek(a: seq<int>, b: seq<int>)
    requires |a| == |b| == 7
    requires a[0] == b[0] && a[1] == b[1] && a[2] == b[2] && a[3] == b[3]
    requires a[4] == b[4] && a[5] == b[5] && a[6] == b[6]
    ensures a == b
  {
    assert forall i | 0 <= i < 7 :: a[i] == b[i];
  }

  /** January 1, 2025 was a Wednesday. */
  lemma NewYear2025()
    ensures Jan1Weekday(2025) == 3
    ensures Jan1Weekday(2026) == 4
    ensures !IsLeapYear(2025) && IsLeapYear(2024)
  {
  }
}
