/** DateFormatMap.java: an ordered chain of date formats that maps date
    strings to calendars, with null-tolerant list overloads. */
module DateFormatMaps {
  import opened Results
  import opened Gregorian
  import opened DateFormats

  /** The chain, as its list field `mDateFormats`. */
  datatype DateFormatMap = DateFormatMap(formats: seq<DateFormat>)

  /** The single-format constructor: a one-element chain, which therefore
      answers exactly as its format does. */
  function FromFormat(format: DateFormat): (m: DateFormatMap)
    ensures |m.formats| == 1
    ensures forall parse: Parser, s: string :: FirstMatch(parse, m.formats, s) == parse(format, s)
  {
    DateFormatMap([format])
  }

  /** `getDefaultMap`: the chain yyyy-MM-dd, then dd-MM-yyyy. The Java
      method memoises it in a static field; as a value it is the same on
      every call. */
  function GetDefaultMap(): (m: DateFormatMap)
    ensures forall i | 0 <= i < |m.formats| :: !m.formats[i].lenient
    ensures forall parse: Parser, s: string :: FirstMatch(parse, m.formats, s) ==
              if parse(SIMPLE_DATE_FORMAT, s).Some? then parse(SIMPLE_DATE_FORMAT, s)
              else parse(SIMPLE_REVERSED_DATE_FORMAT, s)
  {
    DateFormatMap([SIMPLE_DATE_FORMAT, SIMPLE_REVERSED_DATE_FORMAT])
  }

  /** `tryParseSimpleDateFormats`: a null string throws; otherwise the
      yyyy-MM-dd result if that format accepts, else the dd-MM-yyyy result,
      which is null when that one rejects too. */
  function TryParseSimpleDateFormats(parse: Parser, s: Option<string>): (r: Result<Option<CalendarDate>>)
    ensures r.Err? <==> s.None?
    ensures r.Err? ==> r.error == IllegalArgument
    ensures r.Ok? && parse(SIMPLE_DATE_FORMAT, s.value).Some? ==>
              r.value == parse(SIMPLE_DATE_FORMAT, s.value)
    ensures r.Ok? && parse(SIMPLE_DATE_FORMAT, s.value).None? ==>
              r.value == parse(SIMPLE_REVERSED_DATE_FORMAT, s.value)
  {
    match s
    case None => Err(IllegalArgument)
    case Some(str) =>
      match parse(SIMPLE_DATE_FORMAT, str)
      case Some(d) => Ok(Some(d))
      case None =>
        match parse(SIMPLE_REVERSED_DATE_FORMAT, str)
        case Some(d) => Ok(Some(d))
        case None => Ok(None)
  }

  /** `map(String)`: a null string throws; otherwise the result of the first
      format in the chain that accepts the string, or null when none does. */
  function Map(m: DateFormatMap, parse: Parser, s: Option<string>): (r: Result<Option<CalendarDate>>)
    ensures r.Err? <==> s.None?
    ensures r.Err? ==> r.error == IllegalArgument
    ensures r.Ok? ==>
              (r.value.None? <==> forall i | 0 <= i < |m.formats| :: parse(m.formats[i], s.value).None?)
    ensures r.Ok? && r.value.Some? ==>
              exists i | 0 <= i < |m.formats| ::
                && r.value == parse(m.formats[i], s.value)
                && forall j | 0 <= j < i :: parse(m.formats[j], s.value).None?
  {
    match s
    case None => Err(IllegalArgument)
    case Some(str) =>
      match FirstMatch(parse, m.formats, str)
      case None => Ok(None)
      case Some(date) => Ok(Some(Convert(Some(date)).value))
  }

  /** `map(List<String>)`: a null list gives an empty list; otherwise one
      result per string, in order, with null where no format matched. A
      null element reaches `map(String)` and makes the whole call throw. */
  function MapList(m: DateFormatMap, parse: Parser, xs: Option<seq<Option<string>>>)
    : (r: Result<seq<Option<CalendarDate>>>)
    ensures xs.None? ==> r == Ok([])
    ensures xs.Some? ==> (r.Err? <==> exists i | 0 <= i < |xs.value| :: xs.value[i].None?)
    ensures r.Err? ==> r.error == IllegalArgument
    ensures xs.Some? && r.Ok? ==>
              && |r.value| == |xs.value|
              && forall i | 0 <= i < |xs.value| :: Map(m, parse, xs.value[i]) == Ok(r.value[i])
  {
    match xs
    case None => Ok([])
    case Some(strings) => MapEach(s => Map(m, parse, s), strings)
  }

  /** `map(String[])`: the same as the list overload, a null array included. */
  function MapArray(m: DateFormatMap, parse: Parser, xs: Option<seq<Option<string>>>)
    : (r: Result<seq<Option<CalendarDate>>>)
    ensures xs.None? ==> r == Ok([])
    ensures xs.Some? ==> (r.Err? <==> exists i | 0 <= i < |xs.value| :: xs.value[i].None?)
    ensures r.Err? ==> r.error == IllegalArgument
    ensures xs.Some? && r.Ok? ==>
              && |r.value| == |xs.value|
              && forall i | 0 <= i < |xs.value| :: Map(m, parse, xs.value[i]) == Ok(r.value[i])
  {
    MapList(m, parse, xs)
  }

  /** The default chain and `tryParseSimpleDateFormats` agree on every
      string, null included. */
  lemma DefaultMapIsTryParse(parse: Parser, s: Option<string>)
    ensures Map(GetDefaultMap(), parse, s) == TryParseSimpleDateFormats(parse, s)
  {
    if s.Some? {
      var str := s.value;
      var formats := GetDefaultMap().formats;
      assert formats[1..] == [SIMPLE_REVERSED_DATE_FORMAT];
      assert FirstMatch(parse, [SIMPLE_REVERSED_DATE_FORMAT], str) == parse(SIMPLE_REVERSED_DATE_FORMAT, str);
      assert FirstMatch(parse, formats, str) ==
               if parse(SIMPLE_DATE_FORMAT, str).Some? then parse(SIMPLE_DATE_FORMAT, str)
               else parse(SIMPLE_REVERSED_DATE_FORMAT, str);
    }
  }
}
