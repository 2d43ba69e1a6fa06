/** MonthDayDateFormatMap.java: a DateFormatMap over the single format MM-dd
    that stamps a year, fixed at construction, onto every parsed date. */
module MonthDayDateFormatMaps {
  import opened Results
  import opened Gregorian
  import opened DateFormats
  import DateFormatMaps

  /** The subclass instance, as its `short` field `year`. Its inherited
      format list is always `[MONTH_DAY_FORMAT]`. */
  datatype MonthDayDateFormatMap = MonthDayDateFormatMap(year: int)

  /** The Java objects `equals` can be handed: another month-day map, or an
      object of some other class. */
  datatype JavaObject = MonthDayMapObject(instance: MonthDayDateFormatMap) | OtherObject

  /** The constructor: a year outside the `short` range throws. */
  function New(year: int): (r: Result<MonthDayDateFormatMap>)
    ensures r.Err? <==> !IsShort(year)
    ensures r.Err? ==> r.error == IllegalArgument
    ensures r.Ok? ==> r.value.year == year
  {
    if year < SHORT_MIN || year > SHORT_MAX then Err(IllegalArgument)
    else Ok(MonthDayDateFormatMap(year))
  }

  /** The static `map(short, String)`: a null string throws, a string MM-dd
      rejects gives null, and an accepted one gives its month and day in the
      supplied year. */
  function MapWithYear(parse: Parser, year: int, s: Option<string>): (r: Result<Option<CalendarDate>>)
    requires IsShort(year)
    ensures r.Err? <==> s.None?
    ensures r.Err? ==> r.error == IllegalArgument
    ensures r.Ok? ==> (r.value.None? <==> parse(MONTH_DAY_FORMAT, s.value).None?)
    ensures r.Ok? && r.value.Some? ==>
              var parsed := parse(MONTH_DAY_FORMAT, s.value).value;
              && r.value.value.year == year
              && r.value.value == StampYear(parsed, year)
  {
    ParseMonthDay(parse, year, s)
  }

  /** The instance `map(String)`: the static map with the instance's year, so
      every date it returns lies in that year. */
  function Map(m: MonthDayDateFormatMap, parse: Parser, s: Option<string>): (r: Result<Option<CalendarDate>>)
    requires IsShort(m.year)
    ensures r == MapWithYear(parse, m.year, s)
    ensures r.Ok? && r.value.Some? ==> r.value.value.year == m.year
  {
    MapWithYear(parse, m.year, s)
  }

  /** The inherited list overload: a null list gives an empty list, and the
      overriding `map(String)` is applied to each element in order. */
  function MapList(m: MonthDayDateFormatMap, parse: Parser, xs: Option<seq<Option<string>>>)
    : (r: Result<seq<Option<CalendarDate>>>)
    requires IsShort(m.year)
    ensures xs.None? ==> r == Ok([])
    ensures xs.Some? ==> (r.Err? <==> exists i | 0 <= i < |xs.value| :: xs.value[i].None?)
    ensures r.Err? ==> r.error == IllegalArgument
    ensures xs.Some? && r.Ok? ==>
              && |r.value| == |xs.value|
              && forall i | 0 <= i < |xs.value| :: Map(m, parse, xs.value[i]) == Ok(r.value[i])
  {
    match xs
    case None => Ok([])
    case Some(strings) => MapEach(s => Map(m, parse, s), strings)
  }

  /** The inherited array overload: as the list overload, a null array
      included. */
  function MapArray(m: MonthDayDateFormatMap, parse: Parser, xs: Option<seq<Option<string>>>)
    : (r: Result<seq<Option<CalendarDate>>>)
    requires IsShort(m.year)
    ensures r == MapList(m, parse, xs)
    ensures xs.None? ==> r == Ok([])
    ensures xs.Some? ==> (r.Err? <==> exists i | 0 <= i < |xs.value| :: xs.value[i].None?)
    ensures r.Err? ==> r.error == IllegalArgument
    ensures xs.Some? && r.Ok? ==>
              && |r.value| == |xs.value|
              && forall i | 0 <= i < |xs.value| :: Map(m, parse, xs.value[i]) == Ok(r.value[i])
  {
    MapList(m, parse, xs)
  }

  /** `equals`: true exactly for another month-day map with the same year
      (the identity check is subsumed, since an object has its own year). */
  function Equals(m: MonthDayDateFormatMap, other: Option<JavaObject>): (r: bool)
    ensures r <==> other.Some? && other.value.MonthDayMapObject? && other.value.instance.year == m.year
  {
    match other
    case Some(MonthDayMapObject(o)) => o.year == m.year
    case _ => false
  }

  /** `hashCode`: the year. */
  function HashCode(m: MonthDayDateFormatMap): (h: int)
    ensures h == m.year
  {
    m.year
  }

  /** `equals` is an equivalence on month-day maps, and equal maps have
      equal hash codes. */
  lemma EqualsContract(a: MonthDayDateFormatMap, b: MonthDayDateFormatMap, c: MonthDayDateFormatMap)
    ensures Equals(a, Some(MonthDayMapObject(a)))
    ensures Equals(a, Some(MonthDayMapObject(b))) == Equals(b, Some(MonthDayMapObject(a)))
    ensures Equals(a, Some(MonthDayMapObject(b))) && Equals(b, Some(MonthDayMapObject(c))) ==>
              Equals(a, Some(MonthDayMapObject(c)))
    ensures Equals(a, Some(MonthDayMapObject(b))) ==> HashCode(a) == HashCode(b)
    ensures !Equals(a, None) && !Equals(a, Some(OtherObject))
  {
  }

  /** The month-day map answers as the plain one-format chain over MM-dd
      would, except that the year is replaced. */
  lemma MapIsStampedChain(m: MonthDayDateFormatMap, parse: Parser, s: string)
    requires IsShort(m.year)
    ensures var plain := DateFormatMaps.Map(DateFormatMaps.FromFormat(MONTH_DAY_FORMAT), parse, Some(s));
            && plain.Ok?
            && Map(m, parse, Some(s)) ==
                 Ok(if plain.value.None? then None else Some(StampYear(plain.value.value, m.year)))
  {
    assert FirstMatch(parse, [MONTH_DAY_FORMAT], s) == parse(MONTH_DAY_FORMAT, s);
  }
}
