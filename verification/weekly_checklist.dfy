/** The bit-packed, immutable set of weekdays of WeeklyChecklist.java.
    Day numbers follow java.util.Calendar: SUNDAY = 1 .. SATURDAY = 7, and
    day `d` lives in bit `d - 1` of the byte `data`. */
module WeeklyChecklists {

  const SUNDAY: int := 1
  const SATURDAY: int := 7

  predicate IsDayOfWeek(day: int) {
    SUNDAY <= day <= SATURDAY
  }

  /** The checklist as its one `byte` field `mData`. */
  datatype WeeklyChecklist = WeeklyChecklist(data: bv8)

  /** The representation invariant every public constructor establishes:
      only bits 0..6 may be set. */
  predicate Valid(c: WeeklyChecklist) {
    c.data < 0x80
  }

  /** The mask `1 << dayOfWeek - 1` for a valid day, spelled out. */
  function DayMask(day: int): bv8
    requires IsDayOfWeek(day)
  {
    match day
    case 1 => 0x01
    case 2 => 0x02
    case 3 => 0x04
    case 4 => 0x08
    case 5 => 0x10
    case 6 => 0x20
    case 7 => 0x40
  }

  /** `getDayOfWeek`: the Java expression `(mData & (1 << dayOfWeek - 1)) != 0`
      taken literally. The byte is widened to `int` with sign extension, and
      the `int` shift uses only the low five bits of its distance, so bits
      8..31 of the widened value repeat bit 7. */
  function GetDayOfWeek(c: WeeklyChecklist, dayOfWeek: int): bool {
    var shift := (dayOfWeek - 1) % 32;
    if shift < 8 then c.data & ((1 as bv8) << shift) != 0
    else c.data & 0x80 != 0
  }

  /** The seven-flag constructor, Sunday first. */
  function FromDays(sunday: bool, monday: bool, tuesday: bool, wednesday: bool,
                    thursday: bool, friday: bool, saturday: bool): (c: WeeklyChecklist)
    ensures Valid(c)
    ensures GetDayOfWeek(c, 1) == sunday && GetDayOfWeek(c, 2) == monday
    ensures GetDayOfWeek(c, 3) == tuesday && GetDayOfWeek(c, 4) == wednesday
    ensures GetDayOfWeek(c, 5) == thursday && GetDayOfWeek(c, 6) == friday
    ensures GetDayOfWeek(c, 7) == saturday
  {
    WeeklyChecklist(
      (if sunday then 1 else 0) |
      (if monday then 2 else 0) |
      (if tuesday then 4 else 0) |
      (if wednesday then 8 else 0) |
      (if thursday then 16 else 0) |
      (if friday then 32 else 0) |
      (if saturday then 64 else 0))
  }

  /** The one-flag constructor: every day gets the same state. */
  function AllDays(allDays: bool): (c: WeeklyChecklist)
    ensures Valid(c)
    ensures c.data == if allDays then 127 else 0
    ensures forall day | IsDayOfWeek(day) :: GetDayOfWeek(c, day) == allDays
  {
    WeeklyChecklist(if allDays then 127 else 0)
  }

  /** `updateDayOfWeek`: an invalid day gives back the receiver; a valid day
      flips that day's bit and no other. */
  function UpdateDayOfWeek(c: WeeklyChecklist, dayOfWeek: int): (r: WeeklyChecklist)
    ensures !IsDayOfWeek(dayOfWeek) ==> r == c
    ensures IsDayOfWeek(dayOfWeek) ==> GetDayOfWeek(r, dayOfWeek) != GetDayOfWeek(c, dayOfWeek)
    ensures forall day | IsDayOfWeek(day) && day != dayOfWeek ::
              GetDayOfWeek(r, day) == GetDayOfWeek(c, day)
    ensures Valid(c) ==> Valid(r)
  {
    ToggleReadsBack(c, dayOfWeek);
    if dayOfWeek < SUNDAY || dayOfWeek > SATURDAY then c
    else WeeklyChecklist(c.data ^ DayMask(dayOfWeek))
  }

  /** For a valid day the Java bit test is the test against `DayMask`. */
  lemma ReadValidDay(c: WeeklyChecklist, day: int)
    requires IsDayOfWeek(day)
    ensures GetDayOfWeek(c, day) == (c.data & DayMask(day) != 0)
  {
  }

  /** What a toggled byte reads on each of the seven days. */
  lemma ToggleReadsBack(c: WeeklyChecklist, dayOfWeek: int)
    ensures IsDayOfWeek(dayOfWeek) ==>
              var r := WeeklyChecklist(c.data ^ DayMask(dayOfWeek));
              && GetDayOfWeek(r, dayOfWeek) != GetDayOfWeek(c, dayOfWeek)
              && (forall day | IsDayOfWeek(day) && day != dayOfWeek ::
                    GetDayOfWeek(r, day) == GetDayOfWeek(c, day))
              && (Valid(c) ==> Valid(r))
  {
    if IsDayOfWeek(dayOfWeek) {
      var r := WeeklyChecklist(c.data ^ DayMask(dayOfWeek));
      forall day | IsDayOfWeek(day)
        ensures GetDayOfWeek(r, day) == (if day == dayOfWeek then !GetDayOfWeek(c, day) else GetDayOfWeek(c, day))
      {
        ReadValidDay(r, day);
        ReadValidDay(c, day);
      }
    }
  }

  /** Toggling the same day twice restores the packed byte. */
  lemma UpdateTwiceRestores(c: WeeklyChecklist, dayOfWeek: int)
    ensures UpdateDayOfWeek(UpdateDayOfWeek(c, dayOfWeek), dayOfWeek) == c
  {
  }

  /** With bit 7 clear no day outside the week reads as set through the
      sign-extended high bits: in particular day 8 is unset even when all
      seven days are. */
  lemma DayEightIsUnset(c: WeeklyChecklist)
    requires Valid(c)
    ensures !GetDayOfWeek(c, 8)
  {
  }

  /** The Java shift distance is taken modulo 32, so day `d` and day `d + 32`
      read the same bit; with the invariant only the seven residues of the
      week can read as set. */
  lemma GetDayOfWeekAliases(c: WeeklyChecklist, dayOfWeek: int)
    requires Valid(c)
    ensures GetDayOfWeek(c, dayOfWeek) == GetDayOfWeek(c, dayOfWeek + 32)
    ensures GetDayOfWeek(c, dayOfWeek) ==> IsDayOfWeek((dayOfWeek - 1) % 32 + 1)
  {
    var shift := (dayOfWeek - 1) % 32;
    assert (dayOfWeek + 32 - 1) % 32 == shift;
    if shift >= 7 {
      HighBitsClear(c, shift);
    } else {
      assert IsDayOfWeek(shift + 1);
    }
  }

  /** A valid checklist reads every shift from 7 up as unset. */
  lemma HighBitsClear(c: WeeklyChecklist, shift: int)
    requires Valid(c) && 7 <= shift < 32
    ensures !(if shift < 8 then c.data & ((1 as bv8) << shift) != 0 else c.data & 0x80 != 0)
  {
    if shift == 7 {
      assert (1 as bv8) << 7 == 0x80;
    }
  }

  /** A valid checklist is determined by what it reads on the seven days. */
  lemma DaysDetermineChecklist(c: WeeklyChecklist, c': WeeklyChecklist)
    requires Valid(c) && Valid(c')
    requires forall day | IsDayOfWeek(day) :: GetDayOfWeek(c, day) == GetDayOfWeek(c', day)
    ensures c == c'
  {
    ReadValidDay(c, 1); ReadValidDay(c', 1);
    ReadValidDay(c, 2); ReadValidDay(c', 2);
    ReadValidDay(c, 3); ReadValidDay(c', 3);
    ReadValidDay(c, 4); ReadValidDay(c', 4);
    ReadValidDay(c, 5); ReadValidDay(c', 5);
    ReadValidDay(c, 6); ReadValidDay(c', 6);
    ReadValidDay(c, 7); ReadValidDay(c', 7);
  }
}
