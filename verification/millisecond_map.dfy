/** MillisecondMap: a mapping of Calendars applied to timestamps given as
    milliseconds since the epoch, one Calendar per call, set to each value
    in turn. */
module MillisecondMaps {
  import opened Results

  /** The mapping function, composed with `Calendar.setTimeInMillis`: the
      calendar's time zone and locale are fixed for the life of the map,
      so what the function sees is determined by the timestamp. */
  datatype MillisecondMap<T> = MillisecondMap(mapping: int -> T)

  /** Reference for the array and collection overloads: the mapping
      applied to each timestamp, in order. */
  function MapAll<T>(m: MillisecondMap<T>, values: seq<int>): (r: seq<T>)
    ensures |r| == |values|
    ensures forall i | 0 <= i < |values| :: r[i] == m.mapping(values[i])
  {
    if values == [] then [] else [m.mapping(values[0])] + MapAll(m, values[1..])
  }

  /** `map(long)`: the mapping applied to one timestamp, which is what the
      array overload gives for a one-element array. */
  function MapOne<T>(m: MillisecondMap<T>, millis: int): (r: T)
    ensures [r] == MapAll(m, [millis])
  {
    m.mapping(millis)
  }

  /** Mapping a concatenation maps each part. */
  lemma {:induction false} MapAllAppend<T>(m: MillisecondMap<T>, a: seq<int>, b: seq<int>)
    ensures MapAll(m, a + b) == MapAll(m, a) + MapAll(m, b)
  {
    if a != [] {
      assert (a + b)[1..] == a[1..] + b;
      MapAllAppend(m, a[1..], b);
    }
  }

  /** Mapping one more element of a slice appends its mapped value. */
  lemma MapAllExtend<T>(m: MillisecondMap<T>, values: seq<int>, first: int, i: int)
    requires 0 <= first <= i < |values|
    ensures MapAll(m, values[first..i + 1]) == MapAll(m, values[first..i]) + [MapOne(m, values[i])]
  {
    assert values[first..i + 1] == values[first..i] + [values[i]];
    MapAllAppend(m, values[first..i], [values[i]]);
  }

  /** `map(long[])`: walk the array, appending each mapped value. */
  method MapArray<T>(m: MillisecondMap<T>, values: seq<int>) returns (result: seq<T>)
    ensures |result| == |values|
    ensures forall i | 0 <= i < |values| :: result[i] == MapOne(m, values[i])
    ensures result == MapAll(m, values)
  {
    result := [];
    var i := 0;
    while i < |values|
      invariant 0 <= i <= |values|
      invariant result == MapAll(m, values[..i])
    {
      MapAllExtend(m, values, 0, i);
      result := result + [MapOne(m, values[i])];
      i := i + 1;
    }
    assert values[..i] == values;
  }

  /** `map(Collection<Long>)`: the elements in iteration order; unboxing a
      null element throws, and the values mapped before it are lost. */
  function MapCollection<T>(m: MillisecondMap<T>, values: seq<Option<int>>): (r: Result<seq<T>>)
    ensures r.Err? <==> exists i | 0 <= i < |values| :: values[i].None?
    ensures r.Err? ==> r.error == NullPointer
    ensures r.Ok? ==> |r.value| == |values|
    ensures r.Ok? ==> forall i | 0 <= i < |values| :: r.value[i] == MapOne(m, values[i].value)
  {
    if values == [] then Ok([])
    else if values[0].None? then Err(NullPointer)
    else match MapCollection(m, values[1..])
      case Err(e) => Err(e)
      case Ok(rest) => Ok([MapOne(m, values[0].value)] + rest)
  }

  /** A collection without nulls maps like the array of its values. */
  lemma {:induction false} CollectionMatchesArray<T>(m: MillisecondMap<T>, values: seq<int>)
    ensures MapCollection(m, seq(|values|, i requires 0 <= i < |values| => Some(values[i])))
            == Ok(MapAll(m, values))
  {
    var boxed := seq(|values|, i requires 0 <= i < |values| => Some(values[i]));
    var r := MapCollection(m, boxed);
    assert r.Ok?;
    assert r.value == MapAll(m, values);
  }

  /** The index range `map(long[], int, int)` walks, in Java `int`
      arithmetic: a negative start counts from the end of the array and the
      last index is then capped at the end; otherwise the last index is
      `start + count - 1`, wrapping on overflow. */
  function WindowBounds(length: int, start: int, count: int): (b: (int, int))
    requires IsInt(length) && 0 <= length
    requires IsInt(start) && IsInt(count)
    ensures IsInt(b.0) && IsInt(b.1)
    ensures start < 0 ==> b.0 == length + start && b.1 <= length - 1
    ensures start >= 0 ==> b.0 == start
  {
    if start < 0 then
      var first := length + start;
      var last := WrapInt(first + count - 1);
      (first, if last < length - 1 then last else length - 1)
    else
      (start, WrapInt(start + count - 1))
  }

  /** Reference for `map(long[], int, int)`: the loop visits `first` to
      `last` in order; it throws as soon as it reaches an index outside the
      array, which happens exactly when the range is non-empty and either
      end lies outside. */
  function Window<T>(m: MillisecondMap<T>, values: seq<int>, start: int, count: int): (r: Result<seq<T>>)
    requires |values| <= INT_MAX && IsInt(start) && IsInt(count)
  {
    var bounds := WindowBounds(|values|, start, count);
    var first, last := bounds.0, bounds.1;
    if last < first then Ok([])
    else if first < 0 || last >= |values| then Err(IndexOutOfBounds)
    else Ok(MapAll(m, values[first..last + 1]))
  }

  /** `map(long[], int, int)`: the loop over the computed range, one index
      at a time, as the source runs it. */
  method MapWindow<T>(m: MillisecondMap<T>, values: seq<int>, start: int, count: int)
    returns (r: Result<seq<T>>)
    requires |values| <= INT_MAX && IsInt(start) && IsInt(count)
    ensures r == Window(m, values, start, count)
    ensures r.Err? ==> r.error == IndexOutOfBounds
  {
    var bounds := WindowBounds(|values|, start, count);
    var first, last := bounds.0, bounds.1;
    if last < first {
      return Ok([]);
    }
    var result: seq<T> := [];
    var i := first;
    while i <= last
      invariant first <= i <= last + 1
      invariant i > first ==> 0 <= first && i <= |values|
      invariant i == first ==> result == []
      invariant 0 <= first && i <= |values| ==> result == MapAll(m, values[first..i])
      decreases last - i
    {
      if i < 0 || i >= |values| {
        assert first < 0 || last >= |values|;
        return Err(IndexOutOfBounds);
      }
      MapAllExtend(m, values, first, i);
      result := result + [MapOne(m, values[i])];
      i := i + 1;
    }
    assert 0 <= first && last < |values| && result == MapAll(m, values[first..last + 1]);
    r := Ok(result);
  }

  /** A start from the front: `count` values from `start` when they fit,
      nothing for a count of zero or less. */
  lemma WindowFromFront<T>(m: MillisecondMap<T>, values: seq<int>, start: int, count: int)
    requires |values| <= INT_MAX && IsInt(start) && IsInt(count) && IsInt(start + count - 1)
    requires 0 <= start && start + count <= |values|
    ensures Window(m, values, start, count)
            == Ok(if count <= 0 then [] else MapAll(m, values[start..start + count]))
  {
  }

  /** A start from the front whose range runs past the end throws. */
  lemma WindowPastEnd<T>(m: MillisecondMap<T>, values: seq<int>, start: int, count: int)
    requires |values| <= INT_MAX && IsInt(count) && IsInt(start + count - 1)
    requires 0 <= start && 0 < count && start + count > |values|
    ensures Window(m, values, start, count) == Err(IndexOutOfBounds)
  {
  }

  /** A negative start counts back from the end, and the count is cut off
      at the end of the array instead of throwing. */
  lemma WindowFromBack<T>(m: MillisecondMap<T>, values: seq<int>, start: int, count: int)
    requires |values| <= INT_MAX && IsInt(count)
    requires -|values| <= start < 0 && 0 <= count && IsInt(|values| + start + count - 1)
    ensures var first := |values| + start;
            var taken := if count < -start then count else -start;
            Window(m, values, start, count) == Ok(MapAll(m, values[first..first + taken]))
  {
    var first := |values| + start;
    var taken := if count < -start then count else -start;
    assert WindowBounds(|values|, start, count) == (first, first + taken - 1);
  }

  /** A negative start reaching back before the beginning throws when the
      range is non-empty. */
  lemma WindowBeforeStart<T>(m: MillisecondMap<T>, values: seq<int>, start: int, count: int)
    requires |values| <= INT_MAX && IsInt(count) && IsInt(start)
    requires start < -|values| && 0 < count && IsInt(|values| + start + count - 1)
    ensures Window(m, values, start, count) == Err(IndexOutOfBounds)
  {
  }

  /** `start + count - 1` is `int` arithmetic: past `Integer.MAX_VALUE` it
      wraps negative and the range comes out empty. From the front that
      hides a range running off the array; from the back it drops the last
      value, which the cap at the end of the array would otherwise keep. */
  lemma WindowCountOverflow<T>(m: MillisecondMap<T>, values: seq<int>)
    requires |values| <= INT_MAX
    ensures WindowBounds(|values|, 2, INT_MAX).1 == INT_MIN
    ensures Window(m, values, 2, INT_MAX) == Ok([])
    ensures 3 <= |values| ==> Window(m, values, -1, INT_MAX) == Ok([])
  {
  }

  /** The week of timestamps used by the source's tests: the last one, and
      the last two, through negative starts. */
  lemma WeekendOfWeek<T>(m: MillisecondMap<T>, week: seq<int>)
    requires |week| == 7
    ensures Window(m, week, -1, 1) == Ok([MapOne(m, week[6])])
    ensures Window(m, week, -2, 2) == Ok([MapOne(m, week[5]), MapOne(m, week[6])])
    ensures Window(m, week, 1, 1) == Ok([MapOne(m, week[1])])
    ensures Window(m, week, 0, 0) == Ok([])
  {
    assert WindowBounds(7, -1, 1) == (6, 6);
    assert WindowBounds(7, -2, 2) == (5, 6);
    assert WindowBounds(7, 1, 1) == (1, 1);
    assert WindowBounds(7, 0, 0) == (0, -1);
    assert week[6..7] == [week[6]];
    assert week[5..7] == [week[5]] + [week[6]];
    assert week[1..2] == [week[1]];
    assert [MapOne(m, week[1])] == MapAll(m, [week[1]]);
    assert [MapOne(m, week[5])] == MapAll(m, [week[5]]);
    assert [MapOne(m, week[6])] == MapAll(m, [week[6]]);
    MapAllAppend(m, [week[5]], [week[6]]);
    assert [MapOne(m, week[5])] + [MapOne(m, week[6])] == [MapOne(m, week[5]), MapOne(m, week[6])];
  }
}
