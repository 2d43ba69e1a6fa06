/** DateMap.java: the older twin of DateFormatMap, with a month-day map and
    month-day parsing built in, and list overloads that do not guard against
    a null list. */
module DateMaps {
  import opened Results
  import opened Gregorian
  import opened DateFormats

  /** The chain, as its list field `mDateFormats`. */
  datatype DateMap = DateMap(formats: seq<DateFormat>)

  /** `getDefaultMap`: yyyy-MM-dd, then dd-MM-yyyy (memoised in Java). */
  function GetDefaultMap(): (m: DateMap)
    ensures forall i | 0 <= i < |m.formats| :: !m.formats[i].lenient
    ensures forall parse: Parser, s: string :: FirstMatch(parse, m.formats, s) ==
              if parse(SIMPLE_DATE_FORMAT, s).Some? then parse(SIMPLE_DATE_FORMAT, s)
              else parse(SIMPLE_REVERSED_DATE_FORMAT, s)
  {
    DateMap([SIMPLE_DATE_FORMAT, SIMPLE_REVERSED_DATE_FORMAT])
  }

  /** `getMonthDayMap`: the one-format chain MM-dd (memoised in Java). */
  function GetMonthDayMap(): (m: DateMap)
    ensures forall i | 0 <= i < |m.formats| :: !m.formats[i].lenient
    ensures forall parse: Parser, s: string :: FirstMatch(parse, m.formats, s) == parse(MONTH_DAY_FORMAT, s)
  {
    DateMap([MONTH_DAY_FORMAT])
  }

  /** `convert(Date)` and `convert(Calendar)`: a null argument throws. */
  function ConvertDate(date: Option<CalendarDate>): (r: Result<CalendarDate>)
    ensures r.Err? <==> date.None?
    ensures r.Err? ==> r.error == IllegalArgument
    ensures r.Ok? ==> Some(r.value) == date
  {
    Convert(date)
  }

  /** `tryParseSimpleDateFormats`: a null string throws; otherwise yyyy-MM-dd
      first and dd-MM-yyyy second, null when both reject. */
  function TryParseSimpleDateFormats(parse: Parser, s: Option<string>): (r: Result<Option<CalendarDate>>)
    ensures r.Err? <==> s.None?
    ensures r.Err? ==> r.error == IllegalArgument
    ensures r.Ok? && parse(SIMPLE_DATE_FORMAT, s.value).Some? ==>
              r.value == parse(SIMPLE_DATE_FORMAT, s.value)
    ensures r.Ok? && parse(SIMPLE_DATE_FORMAT, s.value).None? ==>
              r.value == parse(SIMPLE_REVERSED_DATE_FORMAT, s.value)
  {
    match s
    case None => Err(IllegalArgument)
    case Some(str) =>
      match parse(SIMPLE_DATE_FORMAT, str)
      case Some(d) => Ok(Some(d))
      case None => Ok(parse(SIMPLE_REVERSED_DATE_FORMAT, str))
  }

  /** `map(String)`: a null string throws; otherwise the result of the first
      accepting format, or null when none accepts. */
  function Map(m: DateMap, parse: Parser, s: Option<string>): (r: Result<Option<CalendarDate>>)
    ensures r.Err? <==> s.None?
    ensures r.Err? ==> r.error == IllegalArgument
    ensures r.Ok? ==>
              (r.value.None? <==> forall i | 0 <= i < |m.formats| :: parse(m.formats[i], s.value).None?)
    ensures r.Ok? && r.value.Some? ==>
              exists i | 0 <= i < |m.formats| ::
                && r.value == parse(m.formats[i], s.value)
                && forall j | 0 <= j < i :: parse(m.formats[j], s.value).None?
  {
    match s
    case None => Err(IllegalArgument)
    case Some(str) =>
      match FirstMatch(parse, m.formats, str)
      case None => Ok(None)
      case Some(date) => Ok(Some(ConvertDate(Some(date)).value))
  }

  /** `map(List<String>)`: the list itself may not be null (the Java code
      would dereference it); one result per string, in order, and a null
      element makes the call throw. */
  function MapList(m: DateMap, parse: Parser, xs: seq<Option<string>>)
    : (r: Result<seq<Option<CalendarDate>>>)
    ensures r.Err? <==> exists i | 0 <= i < |xs| :: xs[i].None?
    ensures r.Err? ==> r.error == IllegalArgument
    ensures r.Ok? ==>
              && |r.value| == |xs|
              && forall i | 0 <= i < |xs| :: Map(m, parse, xs[i]) == Ok(r.value[i])
  {
    MapEach(s => Map(m, parse, s), xs)
  }

  /** `map(String[])`: as the list overload. */
  function MapArray(m: DateMap, parse: Parser, xs: seq<Option<string>>)
    : (r: Result<seq<Option<CalendarDate>>>)
    ensures r.Err? <==> exists i | 0 <= i < |xs| :: xs[i].None?
    ensures r.Err? ==> r.error == IllegalArgument
    ensures r.Ok? ==>
              && |r.value| == |xs|
              && forall i | 0 <= i < |xs| :: Map(m, parse, xs[i]) == Ok(r.value[i])
  {
    MapList(m, parse, xs)
  }

  /** `parseMonthDayString`: a null string throws; a string MM-dd rejects
      gives null; otherwise the parsed month and day in the given year. */
  function ParseMonthDayString(m: DateMap, parse: Parser, year: int, s: Option<string>)
    : (r: Result<Option<CalendarDate>>)
    requires IsShort(year)
    ensures r.Err? <==> s.None?
    ensures r.Err? ==> r.error == IllegalArgument
    ensures r.Ok? ==> (r.value.None? <==> parse(MONTH_DAY_FORMAT, s.value).None?)
    ensures r.Ok? && r.value.Some? ==>
              var parsed := parse(MONTH_DAY_FORMAT, s.value).value;
              && r.value.value.year == year
              && r.value.value == StampYear(parsed, year)
  {
    ParseMonthDay(parse, year, s)
  }

  /** The default chain agrees with `tryParseSimpleDateFormats`, and the
      month-day chain with the single MM-dd format. */
  lemma DefaultChains(parse: Parser, s: Option<string>)
    ensures Map(GetDefaultMap(), parse, s) == TryParseSimpleDateFormats(parse, s)
    ensures s.Some? ==> Map(GetMonthDayMap(), parse, s) == Ok(parse(MONTH_DAY_FORMAT, s.value))
  {
    if s.Some? {
      var str := s.value;
      assert GetDefaultMap().formats[1..] == [SIMPLE_REVERSED_DATE_FORMAT];
      assert FirstMatch(parse, [SIMPLE_REVERSED_DATE_FORMAT], str) == parse(SIMPLE_REVERSED_DATE_FORMAT, str);
      assert FirstMatch(parse, [MONTH_DAY_FORMAT], str) == parse(MONTH_DAY_FORMAT, str);
    }
  }
}
