/** The pieces DateFormatMap.java, DateMap.java and MonthDayDateFormatMap.java
    share: date formats, the ordered fallback over a list of formats, the
    positional mapping of a list of strings, the null-guarded conversion
    between Date and Calendar, and `Date.setYear`. */
module DateFormats {
  import opened Results
  import opened Gregorian

  /** A java.text.SimpleDateFormat, known by its pattern and by whether
      `setLenient(false)` was called on it. */
  datatype DateFormat = SimpleDateFormat(pattern: string, lenient: bool)

  /** What `DateFormat.parse` does with a string: a date, or a
      ParseException (`None`). The formats' own parsing rules are not part
      of the model, so every operation that parses takes this function. */
  type Parser = (DateFormat, string) -> Option<CalendarDate>

  /** The strict formats the map classes keep in static fields. */
  const SIMPLE_DATE_FORMAT: DateFormat := SimpleDateFormat("yyyy-MM-dd", false)
  const SIMPLE_REVERSED_DATE_FORMAT: DateFormat := SimpleDateFormat("dd-MM-yyyy", false)
  const MONTH_DAY_FORMAT: DateFormat := SimpleDateFormat("MM-dd", false)

  /** The `for` loop of `map(String)`: try each format in list order and stop
      at the first that parses. The result is absent exactly when every
      format rejects the string; otherwise it is the result of the first
      format that accepts it. */
  function FirstMatch(parse: Parser, formats: seq<DateFormat>, s: string): (r: Option<CalendarDate>)
    ensures r.None? <==> forall i | 0 <= i < |formats| :: parse(formats[i], s).None?
    ensures r.Some? ==>
              exists i | 0 <= i < |formats| ::
                && r == parse(formats[i], s)
                && forall j | 0 <= j < i :: parse(formats[j], s).None?
  {
    if |formats| == 0 then None
    else match parse(formats[0], s)
      case Some(d) => Some(d)
      case None =>
        var r := FirstMatch(parse, formats[1..], s);
        assert forall i | 1 <= i < |formats| :: formats[i] == formats[1..][i - 1];
        r
  }

  /** Formats after the first accepting one are never consulted: a chain
      extended at the end answers like the original whenever the original
      accepts, and like the extension otherwise. */
  lemma {:induction false} FirstMatchAppend(parse: Parser, first: seq<DateFormat>, rest: seq<DateFormat>, s: string)
    ensures FirstMatch(parse, first + rest, s) ==
              if FirstMatch(parse, first, s).Some? then FirstMatch(parse, first, s)
              else FirstMatch(parse, rest, s)
  {
    if |first| > 0 {
      assert (first + rest)[1..] == first[1..] + rest;
      FirstMatchAppend(parse, first[1..], rest, s);
    } else {
      assert first + rest == rest;
    }
  }

  /** `stream().map(f).collect(toList())`: one output per input, in order;
      the first element on which `f` throws makes the whole call throw. */
  function MapEach(f: Option<string> -> Result<Option<CalendarDate>>, xs: seq<Option<string>>)
    : (r: Result<seq<Option<CalendarDate>>>)
    ensures r.Err? <==> exists i | 0 <= i < |xs| :: f(xs[i]).Err?
    ensures r.Ok? ==> |r.value| == |xs| && forall i | 0 <= i < |xs| :: f(xs[i]) == Ok(r.value[i])
    ensures r.Err? ==> exists i | 0 <= i < |xs| ::
              f(xs[i]) == Err(r.error) && forall j | 0 <= j < i :: f(xs[j]).Ok?
  {
    if |xs| == 0 then Ok([])
    else match f(xs[0])
      case Err(e) => Err(e)
      case Ok(head) =>
        match MapEach(f, xs[1..])
        case Err(e) =>
          assert exists i | 0 <= i < |xs[1..]| :: f(xs[1..][i]) == Err(e);
          var i :| 0 <= i < |xs[1..]| && f(xs[1..][i]) == Err(e)
                   && forall j | 0 <= j < i :: f(xs[1..][j]).Ok?;
          assert f(xs[i + 1]) == Err(e);
          assert forall j | 1 <= j < i + 1 :: f(xs[j]) == f(xs[1..][j - 1]);
          Err(e)
        case Ok(tail) =>
          assert forall i | 1 <= i < |xs| :: f(xs[i]) == f(xs[1..][i - 1]);
          Ok([head] + tail)
  }

  /** Both `convert` overloads: a null argument throws; otherwise the
      Calendar and the Date denote the same instant, here the same date. */
  function Convert(date: Option<CalendarDate>): (r: Result<CalendarDate>)
    ensures r.Err? <==> date.None?
    ensures r.Err? ==> r.error == IllegalArgument
    ensures r.Ok? ==> Some(r.value) == date
  {
    match date
    case None => Err(IllegalArgument)
    case Some(d) => Ok(d)
  }

  /** `Date.setYear`: the year is replaced and the month and day kept; the
      Date is lenient, so February 29 moved into a common year becomes
      March 1. */
  function StampYear(d: CalendarDate, year: int): (r: CalendarDate)
    ensures r.year == year
    ensures !(d.month == 2 && d.day == 29) ==> r.month == d.month && r.day == d.day
    ensures d.month == 2 && d.day == 29 ==>
              if IsLeapYear(year) then r.month == 2 && r.day == 29 else r.month == 3 && r.day == 1
  {
    if d.month == 2 && d.day == 29 && !IsLeapYear(year) then Date(year, 3, 1)
    else Date(year, d.month, d.day)
  }

  /** The `map(short, String)` of MonthDayDateFormatMap, which DateMap repeats
      as `parseMonthDayString`: a null string throws; a string the MM-dd
      format rejects gives null; otherwise the parsed month and day in the
      given year. */
  function ParseMonthDay(parse: Parser, year: int, s: Option<string>): (r: Result<Option<CalendarDate>>)
    ensures r.Err? <==> s.None?
    ensures r.Err? ==> r.error == IllegalArgument
    ensures r.Ok? ==> (r.value.None? <==> parse(MONTH_DAY_FORMAT, s.value).None?)
    ensures r.Ok? && r.value.Some? ==>
              var parsed := parse(MONTH_DAY_FORMAT, s.value).value;
              r.value.value == StampYear(parsed, year) && r.value.value.year == year
  {
    match s
    case None => Err(IllegalArgument)
    case Some(str) =>
      match parse(MONTH_DAY_FORMAT, str)
      case None => Ok(None)
      case Some(parsed) => Ok(Some(Convert(Some(StampYear(parsed, year))).value))
  }
}
