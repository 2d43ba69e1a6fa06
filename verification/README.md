# calendar-tools in Dafny

A model of the core of the Java library calendar-tools, with proofs about it:

- **WeeklyChecklist.** An immutable set of weekdays packed into one byte.
- **WeeklyChecklistFactory.** Its mutable builder over a `boolean[7]`.
- **YearPlanner.** Day numbers, week numbers and the days of a numbered week for one year, computed with `java.util.Calendar`.
- **The date-string maps.** `DateFormatMap`, `DateMap` and `MonthDayDateFormatMap` try an ordered chain of `SimpleDateFormat`s on each string.
- **MillisecondMap.** Applies a mapping of Calendars to timestamps, including a slice overload with negative start indices.

## How the Java is represented

| Java | Dafny |
|---|---|
| `null` | `Option.None` |
| A thrown exception | `Result.Err` (`IllegalArgument`, `IndexOutOfBounds`, `NullPointer`) |
| A method that returns `null` | `Ok(None)` |
| The builder's array | `Days`, a seven-element `seq<bool>` that each operation takes and returns |
| `java.util.Calendar` | A `CalendarDate` of the proleptic Gregorian calendar (module `Gregorian`) |

Calendars follow these rules:

- weeks start on Sunday, and one day in January is enough to make week 1;
- `Calendar.roll(DAY_OF_YEAR, 1)` wraps from December 31 to January 1 of the same year;
- the lenient `Calendar.Builder` rolls a day past the end of its month into the next month.

Parsing with a `DateFormat` is a parameter, `parse: (DateFormat, string) -> Option<CalendarDate>`. `None` stands for a `ParseException`. Every result about the maps holds for any parser.

A `MillisecondMap` is its mapping function composed with `Calendar.setTimeInMillis`, as a function of the timestamp.

Java `int` arithmetic is written out where it matters:

- the shift distance of `1 << d - 1` is taken modulo 32;
- the byte is sign-extended;
- the normalisation of `Integer.MIN_VALUE` is modelled;
- `startIndex + count - 1` wraps.

Modules, one per file:

- `Results` (results.dfy);
- `WeeklyChecklists`;
- `ChecklistFactory`;
- `Gregorian`;
- `DateFormats`, the parts the three maps share;
- `DateFormatMaps`;
- `DateMaps`;
- `MonthDayDateFormatMaps`;
- `YearPlanners`;
- `MillisecondMaps`.

## Model

| member | source | states |
|---|---|---|
| WeeklyChecklists.FromDays | data/src/main/java/calendartools/data/WeeklyChecklist.java:22-40 | The seven-flag constructor sets only bits 0..6, and each day 1..7 reads back exactly its own flag. |
| WeeklyChecklists.AllDays | data/src/main/java/calendartools/data/WeeklyChecklist.java:45-51 | The one-flag constructor stores 127 or 0, and every valid day reads back that flag. |
| WeeklyChecklists.ReadValidDay | data/src/main/java/calendartools/data/WeeklyChecklist.java:66-72 | For days 1..7, the Java test `(mData & (1 << d - 1)) != 0` tests the day's own bit. |
| WeeklyChecklists.UpdateDayOfWeek | data/src/main/java/calendartools/data/WeeklyChecklist.java:80-93 | An invalid day returns the receiver unchanged. A valid day flips that day's reading and no other day's, and bit 7 stays clear. |
| WeeklyChecklists.ToggleReadsBack | data/src/main/java/calendartools/data/WeeklyChecklist.java:88-90 | XOR with a day's mask flips that day and leaves the six others. |
| WeeklyChecklists.UpdateTwiceRestores | data/src/main/java/calendartools/data/WeeklyChecklist.java:80-93 | Updating the same day twice gives back the original checklist, for any day number. |
| WeeklyChecklists.DayEightIsUnset | data/src/main/java/calendartools/data/WeeklyChecklist.java:62-72 | With bit 7 clear, day 8 never reads as set, even when all seven days are set. |
| WeeklyChecklists.GetDayOfWeekAliases | data/src/main/java/calendartools/data/WeeklyChecklist.java:66-72 | Because the shift distance is taken modulo 32, day d and day d + 32 read alike. Only day numbers congruent to 1..7 can read as set. |
| WeeklyChecklists.DaysDetermineChecklist | data/src/main/java/calendartools/data/WeeklyChecklist.java:7-93 | Two valid checklists that read alike on all seven days are equal. |
| ChecklistFactory.Toggle | data/src/main/java/calendartools/data/WeeklyChecklistFactory.java:19-28 | Throws IllegalArgumentException exactly for a day outside 1..7. Otherwise only the day's entry is negated, and the call returns its new value. |
| ChecklistFactory.Get | data/src/main/java/calendartools/data/WeeklyChecklistFactory.java:33-43 | The built checklist is valid, and day i + 1 reads array entry i. |
| ChecklistFactory.Clear | data/src/main/java/calendartools/data/WeeklyChecklistFactory.java:48-50 | Every entry becomes false, so `get` then gives the all-false checklist. |
| ChecklistFactory.FromChecklist | data/src/main/java/calendartools/data/WeeklyChecklistFactory.java:55-61 | Throws NullPointerException exactly for a null checklist. Otherwise entry i receives day i + 1, and for a valid checklist `get` afterwards returns the same checklist. |
| ChecklistFactory.Unpack | data/src/main/java/calendartools/data/WeeklyChecklistFactory.java:58-60 | Because of `array[i++] = getDayOfWeek(i)`, the loop gives entry i the value of day i + 1. For a valid checklist, packing the entries again gives the same checklist. |
| ChecklistFactory.GetAfterUnpack | data/src/main/java/calendartools/data/WeeklyChecklistFactory.java:33-61 | Unpacking a valid checklist and packing it again is the identity. |
| ChecklistFactory.OffsetShift | data/src/main/java/calendartools/data/WeeklyChecklistFactory.java:69-80 | The code's normalisation yields a shift in 0..6. It is `offset mod 7` for every int except Integer.MIN_VALUE, which yields 6. |
| ChecklistFactory.Offset | data/src/main/java/calendartools/data/WeeklyChecklistFactory.java:69-88 | The two-segment copy puts entry (i + shift) mod 7 at i. This is the rotation by `offset` for every int except MIN_VALUE, which rotates like -1. |
| ChecklistFactory.RotateByShift | data/src/main/java/calendartools/data/WeeklyChecklistFactory.java:74-80 | A rotation depends only on the offset modulo 7. |
| ChecklistFactory.RotatePermutes | data/src/main/java/calendartools/data/WeeklyChecklistFactory.java:63-88 | An offset permutes the entries, so the number of checked days is kept. |
| ChecklistFactory.RotateInverse | data/src/main/java/calendartools/data/WeeklyChecklistFactory.java:63-68 | An offset by k followed by -k restores the array. |
| ChecklistFactory.RotateMultipleOfSeven | data/src/main/java/calendartools/data/WeeklyChecklistFactory.java:74-77 | A multiple of 7 leaves the array unchanged. |
| ChecklistFactory.OffsetExamples | data/src/test/java/calendartools/data/WeeklyChecklistFactoryTest.java:102-170 | Offset 1 brings Monday first and -1 brings Saturday. Offset 10 acts as 3, and MAX_VALUE acts as 1. |
| ChecklistFactory.OffsetMinValueQuirk | data/src/main/java/calendartools/data/WeeklyChecklistFactory.java:70-80 | As written, MIN_VALUE shifts by 6, not by its remainder 5, so Wednesday moves to Thursday. |
| ChecklistFactory.CorrectedOffsetShift | data/src/main/java/calendartools/data/WeeklyChecklistFactory.java:63-80 | A normalisation through Java's `%` equals `offset mod 7` on every int. It agrees with the code everywhere except MIN_VALUE. |
| ChecklistFactory.CorrectedOffset | data/src/main/java/calendartools/data/WeeklyChecklistFactory.java:63-88 | With the corrected normalisation, `offset` is the rotation by `offset mod 7` on every int; it permutes the entries, and MIN_VALUE moves Wednesday to Friday. |
| Gregorian.MonthTable | yearplanner/src/main/java/calendartools/yearplanner/YearPlanner.java:98-107 | The cumulative month table steps by the month lengths and sums to the year length. |
| Gregorian.DayOfYear | yearplanner/src/main/java/calendartools/yearplanner/YearPlanner.java:24-27 | DAY_OF_YEAR lies in 1..year length and within its month's span of the table. |
| Gregorian.FromDayOfYear | yearplanner/src/main/java/calendartools/yearplanner/YearPlanner.java:24-27 | For every n in 1..year length there is a date of that year whose day of year is n. |
| Gregorian.FromDayOfYearRoundTrip | yearplanner/src/main/java/calendartools/yearplanner/YearPlanner.java:24-27 | A date is recovered from its year and its day of year. |
| Gregorian.YearStep | yearplanner/src/main/java/calendartools/yearplanner/YearPlanner.java:155-166 | Consecutive years start a year length apart, so the day count runs on across January 1. |
| Gregorian.Next | yearplanner/src/main/java/calendartools/yearplanner/YearPlanner.java:155-166 | The next day's day of month is one more, or 1 after a month's last day. |
| Gregorian.NextOrdinal | yearplanner/src/main/java/calendartools/yearplanner/YearPlanner.java:155-166 | The next day has the next day count, across month and year ends. |
| Gregorian.AdvanceOrdinal | yearplanner/src/main/java/calendartools/yearplanner/YearPlanner.java:155-166 | k steps forward add k to the day count. |
| Gregorian.AdvanceInMonth | yearplanner/src/main/java/calendartools/yearplanner/YearPlanner.java:159-164 | Within a month, k steps forward add k to the day of the month. |
| Gregorian.AdvanceIntoNextMonth | yearplanner/src/main/java/calendartools/yearplanner/YearPlanner.java:159-164 | Steps past a month's last day, short of the month after, land in the next month of the same year. |
| Gregorian.AdvanceIntoNewYear | yearplanner/src/main/java/calendartools/yearplanner/YearPlanner.java:159-164 | From late December, steps past the 31st land in January of the next year. |
| Gregorian.OrdinalWithinYear | yearplanner/src/main/java/calendartools/yearplanner/YearPlanner.java:155-166 | Every date's count lies after its year's start and no later than the next year's start. |
| Gregorian.DaysBeforeYearMonotone | yearplanner/src/main/java/calendartools/yearplanner/YearPlanner.java:155-166 | Year starts increase with the year. |
| Gregorian.OrdinalInjective | yearplanner/src/main/java/calendartools/yearplanner/YearPlanner.java:155-166 | Distinct dates have distinct day counts. |
| Gregorian.Locate | yearplanner/src/main/java/calendartools/yearplanner/YearPlanner.java:156-158 | Any offset from January 1, negative or past the year's end, names the date at exactly that distance. |
| Gregorian.WeekOfYear | yearplanner/src/main/java/calendartools/yearplanner/YearPlanner.java:34-37 | WEEK_OF_YEAR lies in 1..53. |
| Gregorian.WeekStart | yearplanner/src/main/java/calendartools/yearplanner/YearPlanner.java:156-158 | The calendar built from (YEAR, WEEK_OF_YEAR) is a Sunday, week - 1 whole weeks after the Sunday on or before January 1, for any week number. |
| Gregorian.NumberedWeekStart | yearplanner/src/main/java/calendartools/yearplanner/YearPlanner.java:34-37 | The week numbered for a date starts at the Sunday of its row in its own year's grid of weeks, also when the number belongs to the next year. |
| Gregorian.WeekOfYearContainsDate | yearplanner/src/main/java/calendartools/yearplanner/YearPlanner.java:34-37 | A date lies in the seven days from the start of its numbered week, at the position of its weekday. The week number and the week start agree. |
| Gregorian.NextWithinYear | yearplanner/src/main/java/calendartools/yearplanner/YearPlanner.java:161-164 | Before December 31, the next day has the next day of year. |
| Gregorian.RollDayOfYear | yearplanner/src/main/java/calendartools/yearplanner/YearPlanner.java:162 | `roll(DAY_OF_YEAR, 1)` keeps the year. It sends December 31 to January 1 of the same year, and any other date to the next day. |
| YearPlanners.New | yearplanner/src/main/java/calendartools/yearplanner/YearPlanner.java:50-59 | Throws exactly for years outside the short range; otherwise uses the lenient yyyy-MM-dd format. |
| YearPlanners.NewWithFormat | yearplanner/src/main/java/calendartools/yearplanner/YearPlanner.java:65-76 | Throws exactly for a null format or a year outside the short range. |
| YearPlanners.DayNumberOf | yearplanner/src/main/java/calendartools/yearplanner/YearPlanner.java:24-27 | Null throws. Otherwise it is the day of the year, in 1..year length and within the date's month. |
| YearPlanners.DayNumberRoundTrip | yearplanner/src/main/java/calendartools/yearplanner/YearPlanner.java:24-27 | The day number and the year give the date back. |
| YearPlanners.WeekNumberOf | yearplanner/src/main/java/calendartools/yearplanner/YearPlanner.java:34-37 | Null throws. Otherwise it is a week number in 1..53 whose week contains the date. |
| YearPlanners.ValidateMonthDayPair | yearplanner/src/main/java/calendartools/yearplanner/YearPlanner.java:173-178 | True exactly when the month is in 1..12 and the day in 1..31. |
| YearPlanners.GetCalendar | yearplanner/src/main/java/calendartools/yearplanner/YearPlanner.java:98-107 | Throws exactly for an invalid pair. Otherwise the date lies in the planner's year, at day of year = days before the month + day. It is the named date itself when that date exists. |
| YearPlanners.ParseDateString | yearplanner/src/main/java/calendartools/yearplanner/YearPlanner.java:82-91 | Throws exactly for a null string or one the planner's format rejects. Otherwise it is the parsed date. |
| YearPlanners.DayNumberOfString | yearplanner/src/main/java/calendartools/yearplanner/YearPlanner.java:113-116 | Throws exactly for a null or unparsable string. Otherwise it is the static day number of the parsed date. |
| YearPlanners.DayNumber | yearplanner/src/main/java/calendartools/yearplanner/YearPlanner.java:123-128 | Throws exactly for an invalid pair. Otherwise it is days before the month + day, within 1..year length, so February 30 gives 61 in a common year. |
| YearPlanners.WeekNumberOfString | yearplanner/src/main/java/calendartools/yearplanner/YearPlanner.java:134-137 | Throws exactly for a null or unparsable string. Otherwise the numbered week contains the parsed date. |
| YearPlanners.WeekNumber | yearplanner/src/main/java/calendartools/yearplanner/YearPlanner.java:144-149 | Throws exactly for an invalid pair. Otherwise the numbered week contains the leniently built date. |
| YearPlanners.GetDayArray | yearplanner/src/main/java/calendartools/yearplanner/YearPlanner.java:155-166 | The loop of in-year rolls yields the days of the month of the seven real days from the week's Sunday. Entry 0 is the Sunday's day, and each next entry is one more, or 1. |
| YearPlanners.RollStep | yearplanner/src/main/java/calendartools/yearplanner/YearPlanner.java:161-164 | A roll that wraps to January of the same year still shows the same day of the month as the real date in the next January. |
| YearPlanners.WeekDaysConsecutive | yearplanner/src/main/java/calendartools/yearplanner/YearPlanner.java:155-166 | Consecutive entries of a week's day array go up by one or restart at 1. |
| YearPlanners.DayArrayContainsDate | yearplanner/src/main/java/calendartools/yearplanner/YearPlanner.java:34-37 | The day array of a date's week shows the date's day of the month at the index of its weekday. |
| YearPlanners.ConstructorBounds | yearplanner/src/main/java/calendartools/yearplanner/YearPlanner.java:53-56 | The years 32767 and -32768 are accepted, the years 32768 and -32769 are rejected, and a null format is rejected. |
| YearPlanners.DayNumbers2025 | yearplanner/src/test/java/calendartools/yearplanner/YearPlannerTest.java:203-211 | In 2025, the pair 1-1 is day 1 and the pair 12-31 is day 365. |
| YearPlanners.ZeroMonthOrDayThrows | yearplanner/src/test/java/calendartools/yearplanner/YearPlannerTest.java:166-176 | In 2025, month 0 and day 0 throw IllegalArgumentException, from `getCalendar` and from `getDayNumber` alike. |
| YearPlanners.LenientFebruary30 | yearplanner/src/main/java/calendartools/yearplanner/YearPlanner.java:98-128 | The lenient builder rolls February 30, 2025 over to March 2, which is day 61. This follows from the code; no test states it. |
| YearPlanners.WeekNumberOfDate | yearplanner/src/main/java/calendartools/yearplanner/YearPlanner.java:144-149 | For an existing date, the pair's week number is that date's WEEK_OF_YEAR. |
| YearPlanners.WeekNumbers2025 | yearplanner/src/test/java/calendartools/yearplanner/YearPlannerTest.java:229-271 | In 2025 the pairs 1-1 and 1-4 are week 1, 1-5 is week 2 and 1-12 is week 3. 12-27 is week 52 and 12-31 is week 1; month 13 throws. |
| YearPlanners.FirstWeekOf2025 | yearplanner/src/test/java/calendartools/yearplanner/YearPlannerTest.java:293-300 | Week 1 of 2025 starts on Sunday 2024-12-29; its days are 29, 30, 31, 1, 2, 3, 4. |
| YearPlanners.LastWeekOf2025 | yearplanner/src/test/java/calendartools/yearplanner/YearPlannerTest.java:320-327 | Week 53 of 2025 starts on 2025-12-28; its days are 28, 29, 30, 31, 1, 2, 3, the days of the first days of 2026. |
| YearPlanners.Week18Of2025 | yearplanner/src/test/java/calendartools/yearplanner/YearPlannerTest.java:302-309 | Week 18 of 2025 starts on Sunday 2025-04-27; its days are 27, 28, 29, 30, 1, 2, 3. |
| YearPlanners.Week52Of2025 | yearplanner/src/test/java/calendartools/yearplanner/YearPlannerTest.java:311-318 | Week 52 of 2025 starts on Sunday 2025-12-21; its days are 21 to 27. |
| YearPlanners.NewYear2025 | yearplanner/src/test/java/calendartools/yearplanner/YearPlannerTest.java:293-300 | The calendar facts behind the week-1 expectation: January 1 of 2025 is a Wednesday and January 1 of 2026 a Thursday. 2024 is a leap year and 2025 is not. No test states them directly. |
| DateFormats.FirstMatch | map/src/main/java/calendartools/map/DateFormatMap.java:115-122 | No result exactly when every format rejects. Otherwise it is the result of an accepting format with every earlier format rejecting. |
| DateFormats.FirstMatchAppend | map/src/main/java/calendartools/map/DateFormatMap.java:116-121 | Formats after the first accepting one are never consulted. |
| DateFormats.MapEach | map/src/main/java/calendartools/map/DateFormatMap.java:134-136 | Gives one result per element, in order. The call throws exactly when the mapping throws on some element, and with the first failing element's exception. |
| DateFormats.Convert | map/src/main/java/calendartools/map/DateFormatMap.java:21-39 | Null throws IllegalArgumentException. Otherwise the same date comes back. |
| DateFormats.StampYear | map/src/main/java/calendartools/map/MonthDayDateFormatMap.java:38 | `setYear` replaces the year and keeps month and day, except that February 29 becomes March 1 in a common year. |
| DateFormats.ParseMonthDay | map/src/main/java/calendartools/map/MonthDayDateFormatMap.java:27-40 | Null throws, and a string MM-dd rejects gives null. Otherwise it is the parsed month and day stamped into the given year. |
| DateFormatMaps.FromFormat | map/src/main/java/calendartools/map/DateFormatMap.java:75-79 | A one-format chain answers every string exactly as its format does. |
| DateFormatMaps.TryParseSimpleDateFormats | map/src/main/java/calendartools/map/DateFormatMap.java:94-105 | Null throws. Otherwise it is the yyyy-MM-dd result when that format accepts, else the dd-MM-yyyy result or null. |
| DateFormatMaps.Map | map/src/main/java/calendartools/map/DateFormatMap.java:111-124 | Null throws. Otherwise it is null exactly when all formats reject, else the first accepting format's date. |
| DateFormatMaps.GetDefaultMap | map/src/main/java/calendartools/map/DateFormatMap.java:59-67 | The default map's formats are all strict, and on every string it tries yyyy-MM-dd first and falls back to dd-MM-yyyy. |
| DateFormatMaps.MapList | map/src/main/java/calendartools/map/DateFormatMap.java:130-137 | A null list gives an empty list. Otherwise it is one `map(String)` result per element, in order. It throws IllegalArgumentException exactly when an element is null. |
| DateFormatMaps.MapArray | map/src/main/java/calendartools/map/DateFormatMap.java:143-150 | The array overload behaves as the list overload, a null array included, and throws only IllegalArgumentException. |
| DateFormatMaps.DefaultMapIsTryParse | map/src/main/java/calendartools/map/DateFormatMap.java:59-105 | The default chain and `tryParseSimpleDateFormats` agree on every string, null included. |
| DateMaps.ConvertDate | map/src/main/java/calendartools/map/DateMap.java:20-38 | Null throws. Otherwise the same date comes back. |
| DateMaps.TryParseSimpleDateFormats | map/src/main/java/calendartools/map/DateMap.java:106-117 | Null throws. Otherwise it is yyyy-MM-dd first and dd-MM-yyyy second. |
| DateMaps.GetDefaultMap | map/src/main/java/calendartools/map/DateMap.java:63-70 | The default map's formats are all strict, and on every string it tries yyyy-MM-dd first and falls back to dd-MM-yyyy. |
| DateMaps.GetMonthDayMap | map/src/main/java/calendartools/map/DateMap.java:77-84 | The month-day map's formats are strict, and on every string it answers as the single MM-dd format. |
| DateMaps.Map | map/src/main/java/calendartools/map/DateMap.java:123-136 | Null throws. Otherwise it is null exactly when all formats reject, else the first accepting format's date. |
| DateMaps.MapList | map/src/main/java/calendartools/map/DateMap.java:138-144 | One result per element, in order. It throws IllegalArgumentException exactly when an element is null. |
| DateMaps.MapArray | map/src/main/java/calendartools/map/DateMap.java:146-152 | The array overload behaves as the list overload: one result per element, and IllegalArgumentException exactly when an element is null. |
| DateMaps.ParseMonthDayString | map/src/main/java/calendartools/map/DateMap.java:158-171 | Null throws, and a rejected string gives null. Otherwise it is the parsed month and day stamped into the given year. |
| DateMaps.DefaultChains | map/src/main/java/calendartools/map/DateMap.java:63-84 | The default chain agrees with `tryParseSimpleDateFormats`, and the month-day chain with the single MM-dd format. |
| MonthDayDateFormatMaps.New | map/src/main/java/calendartools/map/MonthDayDateFormatMap.java:49-56 | Throws exactly for a year outside the short range. |
| MonthDayDateFormatMaps.MapWithYear | map/src/main/java/calendartools/map/MonthDayDateFormatMap.java:27-40 | Null throws, and a rejected string gives null. Otherwise the parsed month-day lands in the given year. |
| MonthDayDateFormatMaps.Map | map/src/main/java/calendartools/map/MonthDayDateFormatMap.java:62-67 | Every date returned lies in the map's own year. |
| MonthDayDateFormatMaps.MapList | map/src/main/java/calendartools/map/DateFormatMap.java:130-137 | The inherited list overload applies the overriding `map(String)` to each element, in order. It throws IllegalArgumentException exactly when an element is null. |
| MonthDayDateFormatMaps.MapArray | map/src/main/java/calendartools/map/DateFormatMap.java:143-150 | The inherited array overload behaves as the list overload, a null array included. |
| MonthDayDateFormatMaps.Equals | map/src/main/java/calendartools/map/MonthDayDateFormatMap.java:69-76 | True exactly for another month-day map with the same year. |
| MonthDayDateFormatMaps.HashCode | map/src/main/java/calendartools/map/MonthDayDateFormatMap.java:78-81 | The hash code is the year. |
| MonthDayDateFormatMaps.EqualsContract | map/src/main/java/calendartools/map/MonthDayDateFormatMap.java:69-81 | `equals` is reflexive, symmetric and transitive, and false for null and other classes. Equal maps hash alike. |
| MonthDayDateFormatMaps.MapIsStampedChain | map/src/main/java/calendartools/map/MonthDayDateFormatMap.java:49-67 | The subclass answers as the plain MM-dd chain of its superclass would, with the year replaced. |
| MillisecondMaps.MapAll | map/src/main/java/calendartools/map/MillisecondMap.java:29-40 | One output per timestamp, in order, each the mapping of that timestamp. |
| MillisecondMaps.MapAllAppend | map/src/main/java/calendartools/map/MillisecondMap.java:29-40 | Mapping a concatenation maps each part. |
| MillisecondMaps.MapOne | map/src/main/java/calendartools/map/MillisecondMap.java:96-102 | `map(long)` agrees with the array overload on a one-element array. |
| MillisecondMaps.MapArray | map/src/main/java/calendartools/map/MillisecondMap.java:29-40 | The loop yields one mapped value per timestamp, in order. |
| MillisecondMaps.MapCollection | map/src/main/java/calendartools/map/MillisecondMap.java:79-90 | Throws NullPointerException exactly when some element is null. Otherwise it maps each element in iteration order. |
| MillisecondMaps.CollectionMatchesArray | map/src/main/java/calendartools/map/MillisecondMap.java:29-90 | A collection without nulls maps like the array of its values. |
| MillisecondMaps.WindowBounds | map/src/main/java/calendartools/map/MillisecondMap.java:53-64 | A negative start counts from the end, with the last index capped at the end. Otherwise the range starts at `start`. Both bounds are ints. |
| MillisecondMaps.MapWindow | map/src/main/java/calendartools/map/MillisecondMap.java:48-73 | The index loop throws IndexOutOfBounds exactly when the range is non-empty and leaves the array. Otherwise it returns the mapped slice. |
| MillisecondMaps.WindowFromFront | map/src/main/java/calendartools/map/MillisecondMap.java:62-72 | From a non-negative start, it gives `count` values when they fit, and none for a count of 0 or less. |
| MillisecondMaps.WindowPastEnd | map/src/main/java/calendartools/map/MillisecondMap.java:62-72 | From the front, a range running past the end throws. |
| MillisecondMaps.WindowFromBack | map/src/main/java/calendartools/map/MillisecondMap.java:55-61 | A start in -length..-1 counts from the end. The count is cut off at the end instead of throwing. |
| MillisecondMaps.WindowBeforeStart | map/src/main/java/calendartools/map/MillisecondMap.java:55-61 | A negative start before the beginning throws when the range is non-empty. |
| MillisecondMaps.WindowCountOverflow | map/src/main/java/calendartools/map/MillisecondMap.java:58-63 | When `start + count - 1` passes Integer.MAX_VALUE it wraps, and the range comes out empty. |
| MillisecondMaps.WeekendOfWeek | map/src/test/java/calendartools/map/MillisecondMapTest.java:45-108 | On a week of timestamps, (-1, 1) gives the last and (-2, 2) the last two. (1, 1) gives the second and (0, 0) nothing. |

## Left out

- Parsing and formatting by `SimpleDateFormat` are not modelled. The parser is a parameter, and only the patterns and the lenient flag of the formats are recorded.
- `java.util.GregorianCalendar` switches to the Julian calendar before October 1582 and has eras for years before 1. The model uses the proleptic Gregorian calendar for every year. Its results for such years differ from Java's.
- Locale is not modelled. Week numbering assumes a locale with Sunday as the first day of the week and one minimal day in the first week, as in the US.
- Time zones, times of day and the instant arithmetic of `Date`/`Calendar` conversion are not modelled. A Calendar is its date, and `MillisecondMap` sees its mapping only through the timestamp.
- The memoising static fields of `getDefaultMap` and `getMonthDayMap` are not modelled, nor is their lack of synchronisation. The maps are values, so every call gives an equal map.
- Java reference identity is not modelled. `updateDayOfWeek` returning `this` is modelled as returning an equal value, and the identity check in `equals` is subsumed by the year comparison.
- The constructors `DateFormatMap(DateFormat)` and `DateMap(DateFormat)` throw NullPointerException from `List.of` for a null format. The list constructors keep a null list and fail later. The model takes non-null formats and lists.
- `DateMaps.MapList` and `DateMaps.MapArray` take a non-null list. The Java overloads throw NullPointerException for a null one, which is not modelled.
- Null arrays and collections passed to `MillisecondMap` throw NullPointerException. The model takes them non-null.
- Side effects of the mapping function, and the reuse of one Calendar across a call, are not modelled. The mapping is a pure function of the timestamp.
- YearPlanners.GetDayArray takes the week number as an int in the byte range. Its result, days of the month 1..31, fits a byte, so the byte casts change nothing and are not written out.
- The doc comment of `getDayArray` says the days run "from Monday to Sunday". The code starts at the Sunday that `Calendar.Builder` gives for the week, and the model follows the code.
- `WeeklyChecklist.getDayOfWeek` documents its result as undefined for an invalid day. The model gives the Java expression's actual value (shift modulo 32, sign-extended byte); see WeeklyChecklists.GetDayOfWeekAliases.
- YearPlannerTest and the other test sources also exercise a newer API, such as `getDayArray(week, offset)`, `getWeekNumber(dayOfYear)` and a `mDateMap` field. That API is not part of the modelled source and is left out. Only test expectations that the modelled methods also meet are restated as lemmas.
- WeeklyChecklistFactoryTest.java:158-163 expects `offset(Integer.MIN_VALUE)` to move Wednesday to Monday. Neither the code (Thursday) nor the remainder modulo 7 (Friday) gives that. The model follows the code; see Findings.

## Findings

| source | as written | input that shows it | evidently intended | confidence | as-written member | corrected member |
|---|---|---|---|---|---|---|
| data/src/main/java/calendartools/data/WeeklyChecklistFactory.java:72 | `Integer.MIN_VALUE` cannot be negated, so it is replaced by `Integer.MAX_VALUE`, whose remainder is 1; the backward shift then becomes the forward shift 6 | `offset(Integer.MIN_VALUE)` on a checklist with only Wednesday checked: Wednesday moves to Thursday | A shift by `Integer.MIN_VALUE mod 7 = 5`, as for every other offset (Wednesday to Friday) | medium; not executed | ChecklistFactory.OffsetMinValueQuirk | ChecklistFactory.CorrectedOffset |
