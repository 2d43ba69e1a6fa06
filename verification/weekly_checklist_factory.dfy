/** The mutable builder of WeeklyChecklistFactory.java. Its `boolean[7]`
    field is modelled as a seven-element sequence that each operation takes
    and gives back; index `i` holds the state of day `i + 1`. */
module ChecklistFactory {
  import opened Results
  import opened WeeklyChecklists

  /** The contents of the builder's array. */
  type Days = s: seq<bool> | |s| == 7 witness [false, false, false, false, false, false, false]

  /** A fresh builder: Java initialises `new boolean[7]` to all false. */
  const EMPTY: Days := [false, false, false, false, false, false, false]

  /** `toggle`: an invalid day throws and the array is untouched; a valid day
      negates its entry, and the new entry is what the call returns. */
  function Toggle(days: Days, dayOfWeek: int): (r: Result<(Days, bool)>)
    ensures r.Err? <==> !IsDayOfWeek(dayOfWeek)
    ensures r.Err? ==> r.error == IllegalArgument
    ensures r.Ok? ==>
              var (days', updated) := r.value;
              && updated == days'[dayOfWeek - 1]
              && days'[dayOfWeek - 1] != days[dayOfWeek - 1]
              && forall i | 0 <= i < 7 && i != dayOfWeek - 1 :: days'[i] == days[i]
  {
    if dayOfWeek < SUNDAY || dayOfWeek > SATURDAY then Err(IllegalArgument)
    else
      var index := dayOfWeek - 1;
      var updated := !days[index];
      Ok((days[index := updated], updated))
  }

  /** `get`: the checklist whose day `i + 1` reads as entry `i`. */
  function Get(days: Days): (c: WeeklyChecklist)
    ensures Valid(c)
    ensures forall i | 0 <= i < 7 :: GetDayOfWeek(c, i + 1) == days[i]
  {
    FromDays(days[0], days[1], days[2], days[3], days[4], days[5], days[6])
  }

  /** `clear`: every entry becomes false, whatever it held. */
  function Clear(days: Days): (r: Days)
    ensures forall i | 0 <= i < 7 :: !r[i]
    ensures Get(r) == AllDays(false)
  {
    var r := seq(7, i => false);
    DaysDetermineChecklist(Get(r), AllDays(false));
    r
  }

  /** `fromChecklist`: the loop `slots[i++] = checklist.getDayOfWeek(i)` reads
      the incremented index, so entry `i` receives day `i + 1`. Every entry is
      overwritten, so the previous contents do not matter. For a valid
      checklist, `get` afterwards gives the same checklist back. A null
      checklist throws NullPointerException at the first read, before any
      entry is written, so the builder keeps its array. */
  method FromChecklist(checklist: Option<WeeklyChecklist>) returns (r: Result<Days>)
    ensures r.Err? <==> checklist.None?
    ensures r.Err? ==> r.error == NullPointer
    ensures r.Ok? ==> forall i | 0 <= i < 7 :: r.value[i] == GetDayOfWeek(checklist.value, i + 1)
    ensures r.Ok? && Valid(checklist.value) ==> Get(r.value) == checklist.value
  {
    if checklist.None? {
      return Err(NullPointer);
    }
    var days := Unpack(checklist.value);
    return Ok(days);
  }

  /** The copy loop of `fromChecklist` on a non-null checklist. */
  method Unpack(checklist: WeeklyChecklist) returns (days: Days)
    ensures forall i | 0 <= i < 7 :: days[i] == GetDayOfWeek(checklist, i + 1)
    ensures Valid(checklist) ==> Get(days) == checklist
  {
    var slots := new bool[7];
    var i := 0;
    while i < 7
      invariant 0 <= i <= 7
      invariant forall j | 0 <= j < i :: slots[j] == GetDayOfWeek(checklist, j + 1)
    {
      i := i + 1;
      slots[i - 1] := GetDayOfWeek(checklist, i);
    }
    days := slots[..];
    if Valid(checklist) {
      GetAfterUnpack(days, checklist);
    }
  }

  /** Packing the seven entries read from a valid checklist gives it back. */
  lemma GetAfterUnpack(days: Days, checklist: WeeklyChecklist)
    requires Valid(checklist)
    requires forall i | 0 <= i < 7 :: days[i] == GetDayOfWeek(checklist, i + 1)
    ensures Get(days) == checklist
  {
    var c := Get(days);
    forall day | IsDayOfWeek(day)
      ensures GetDayOfWeek(c, day) == GetDayOfWeek(checklist, day)
    {
      assert GetDayOfWeek(c, (day - 1) + 1) == days[day - 1];
    }
    DaysDetermineChecklist(c, checklist);
  }

  /** Reference rotation: entry `i` of the result is entry `(i + k) mod 7`
      of the input (Euclidean remainder). */
  function Rotate(days: Days, k: int): Days {
    seq(7, i requires 0 <= i < 7 => days[(i + k) % 7])
  }

  /** The rotation amount `offset` computes, following its branches: negate
      a negative offset, except that `Integer.MIN_VALUE` is replaced by
      `Integer.MAX_VALUE`; reduce modulo 7; stop on zero; turn a backward
      shift into the forward shift `7 - n`. */
  function OffsetShift(offset: int): (n: int)
    requires IsInt(offset)
    ensures 0 <= n < 7
    ensures offset != INT_MIN ==> n == offset % 7
    ensures offset == INT_MIN ==> n == 6
  {
    var reverse := offset < 0;
    var magnitude := if reverse then (if offset == INT_MIN then INT_MAX else -offset) else offset;
    var normalized := if magnitude >= 7 then magnitude % 7 else magnitude;
    if normalized == 0 then 0
    else if reverse then 7 - normalized
    else normalized
  }

  /** `offset`: split the array after the first `n` entries and write the two
      segments back in swapped order. For every offset except
      `Integer.MIN_VALUE` this is the rotation by `offset mod 7`;
      `Integer.MIN_VALUE` rotates like `-1`. */
  method Offset(days: Days, offset: int) returns (r: Days)
    requires IsInt(offset)
    ensures forall i | 0 <= i < 7 :: r[i] == days[(i + OffsetShift(offset)) % 7]
    ensures offset != INT_MIN ==> r == Rotate(days, offset)
    ensures offset == INT_MIN ==> r == Rotate(days, -1)
  {
    var n := OffsetShift(offset);
    if offset != INT_MIN {
      RotateByShift(days, offset, n);
    } else {
      RotateByShift(days, -1, n);
    }
    if n == 0 {
      r := days;
      return;
    }
    var seg0 := days[0..n];
    var seg6 := days[n..7];
    var slots := new bool[7];
    var i := 0;
    while i < 7
      invariant 0 <= i <= 7
      invariant forall j | 0 <= j < i :: slots[j] == days[(j + n) % 7]
    {
      if i < |seg6| {
        assert (i + n) % 7 == i + n;
        slots[i] := seg6[i];
      } else {
        assert (i + n) % 7 == i + n - 7;
        slots[i] := seg0[i - |seg6|];
      }
      i := i + 1;
    }
    r := slots[..];
  }

  /** Adding a multiple of 7 does not change a remainder modulo 7. */
  lemma ModSeven(a: int, b: int)
    ensures (a % 7 + b) % 7 == (a + b) % 7
  {
    var q := a / 7;
    assert a == 7 * q + a % 7;
    assert a + b == (a % 7 + b) + 7 * q;
  }

  /** Rotating by `k` depends only on `k mod 7`. */
  lemma RotateByShift(days: Days, k: int, n: int)
    requires n == k % 7
    ensures forall i | 0 <= i < 7 :: Rotate(days, k)[i] == days[(i + n) % 7]
  {
    forall i | 0 <= i < 7
      ensures Rotate(days, k)[i] == days[(i + n) % 7]
    {
      ModSeven(k, i);
    }
  }

  /** Rotation is a permutation: the entries, and so the number of checked
      days, are the same before and after. */
  lemma {:induction false} RotatePermutes(days: Days, k: int)
    ensures multiset(Rotate(days, k)) == multiset(days)
  {
    var n := k % 7;
    var r := Rotate(days, k);
    assert r == days[n..] + days[..n];
    calc {
      multiset(r);
      multiset(days[n..]) + multiset(days[..n]);
      { assert days == days[..n] + days[n..]; }
      multiset(days);
    }
  }

  /** Rotating by `k` and then by `-k` restores the array. */
  lemma RotateInverse(days: Days, k: int)
    ensures Rotate(Rotate(days, k), -k) == days
  {
    var r := Rotate(days, k);
    var back := Rotate(r, -k);
    forall i | 0 <= i < 7
      ensures back[i] == days[i]
    {
      var j := (i - k) % 7;
      StepBack(i, k);
      assert back[i] == r[j] == days[(j + k) % 7];
    }
  }

  /** Stepping back `k` positions on the week and then forward `k` returns
      to the start. */
  lemma StepBack(i: int, k: int)
    requires 0 <= i < 7
    ensures ((i - k) % 7 + k) % 7 == i
  {
    ModSeven(i - k, k);
  }

  /** Rotating by a multiple of 7 changes nothing. */
  lemma RotateMultipleOfSeven(days: Days, k: int)
    requires k % 7 == 0
    ensures Rotate(days, k) == days
  {
    var r := Rotate(days, k);
    forall i | 0 <= i < 7
      ensures r[i] == days[i]
    {
      ModSeven(k, i);
    }
  }

  /** Offset 1 brings Monday to the first slot, offset -1 brings Saturday,
      offset 10 behaves like 3, and `Integer.MAX_VALUE` like 1. */
  lemma OffsetExamples(days: Days)
    ensures Rotate(days, 1)[0] == days[1]
    ensures Rotate(days, -1)[0] == days[6]
    ensures Rotate(days, 10)[0] == days[3]
    ensures OffsetShift(INT_MAX) == 1
  {
  }

  /** `Integer.MIN_VALUE` is not rotated by its own remainder modulo 7 (which
      is 5, a shift of two days backwards) but by 6, the shift of
      `Integer.MAX_VALUE` taken backwards, i.e. like `offset(-1)`: a Wednesday
      moves to Thursday, not to Friday. */
  lemma OffsetMinValueQuirk(days: Days)
    ensures INT_MIN % 7 == 5
    ensures OffsetShift(INT_MIN) == 6 != INT_MIN % 7
    ensures Rotate(days, OffsetShift(INT_MIN))[4] == days[3]
    ensures Rotate(days, INT_MIN)[5] == days[3]
  {
  }

  /** The normalisation `offset` evidently intends: take the remainder with
      Java's `%` (which cannot overflow) instead of negating first, then turn
      a backward shift into a forward one. It agrees with the rotation by
      `offset mod 7` on every `int`, `Integer.MIN_VALUE` included, and with
      the code on every other offset. */
  function CorrectedOffsetShift(offset: int): (n: int)
    requires IsInt(offset)
    ensures 0 <= n < 7
    ensures n == offset % 7
    ensures offset != INT_MIN ==> n == OffsetShift(offset)
  {
    var rem := JavaRem(offset, 7);
    if rem < 0 then 7 + rem else rem
  }

  /** `offset` with the corrected normalisation: the rotation by
      `offset mod 7` for every `int`, and the same array as the code for
      every offset but `Integer.MIN_VALUE`. */
  function CorrectedOffset(days: Days, offset: int): (r: Days)
    requires IsInt(offset)
    ensures r == Rotate(days, offset)
    ensures multiset(r) == multiset(days)
    ensures offset == INT_MIN ==> r[5] == days[3]
  {
    var n := CorrectedOffsetShift(offset);
    RotateByShift(days, offset, n);
    RotatePermutes(days, offset);
    seq(7, i requires 0 <= i < 7 => days[(i + n) % 7])
  }
}
