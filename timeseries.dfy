/**
  A historical sequence of values, each observed at a time
  (timeseries/timeseries.go). The series is a slice the methods append to
  through the receiver pointer; here it is the `items` field of a class.
 */
module Timeseries {
  /** The dynamic value in `TimeValue.Value`: a float64, or a value of some other type. */
  datatype Value = Float64(x: real) | Other(typeName: string)

  /** `time.Time` is an instant, here a number of nanoseconds. */
  datatype TimeValue = TimeValue(time: int, value: Value)

  /** The raw values of the items, in order. */
  function Projection(items: seq<TimeValue>): (vs: seq<Value>)
    ensures |vs| == |items|
  {
    seq(|items|, i requires 0 <= i < |items| => items[i].value)
  }

  predicate AllFloats(items: seq<TimeValue>) {
    forall i :: 0 <= i < |items| ==> items[i].value.Float64?
  }

  /** Appending an item appends its value to the projection. */
  lemma ProjectionAppend(items: seq<TimeValue>, tv: TimeValue)
    ensures Projection(items + [tv]) == Projection(items) + [tv.value]
  {
    assert forall i :: 0 <= i < |items| ==> (items + [tv])[i] == items[i];
  }

  class TimeSeries {
    var items: seq<TimeValue>

    /** The nil slice. */
    constructor ()
      ensures items == []
    {
      items := [];
    }

    /** Records an observation at a specified time: it becomes the last item, the others stay as they were. */
    method AddWithTime(tv: TimeValue)
      modifies this
      ensures items == old(items) + [tv]
      ensures |items| == |old(items)| + 1 && items[|items| - 1] == tv
      ensures forall i :: 0 <= i < |old(items)| ==> items[i] == old(items)[i]
    {
      items := items + [tv];
    }

    /** Records an observation at the current time, which the caller reads from the clock and passes as `now`. */
    method Add(v: Value, now: int)
      modifies this
      ensures items == old(items) + [TimeValue(now, v)]
    {
      var tv := TimeValue(now, v);
      AddWithTime(tv);
    }

    /** The raw values of the series, copied into a fresh slice; the series is not changed. */
    method Values() returns (res: seq<Value>)
      ensures |res| == |items|
      ensures forall i :: 0 <= i < |items| ==> res[i] == items[i].value
      ensures res == Projection(items)
    {
      var buf := new Value[|items|](_ => Other(""));
      for i := 0 to |items|
        invariant forall j :: 0 <= j < i ==> buf[j] == items[j].value
      {
        buf[i] := items[i].value;
      }
      res := buf[..];
    }

    /** The float64 values of the series; the type assertion panics unless every value is a float64. */
    method FloatValues() returns (res: seq<real>)
      requires AllFloats(items)
      ensures |res| == |items|
      ensures forall i :: 0 <= i < |items| ==> items[i].value == Float64(res[i])
    {
      var buf := new real[|items|];
      for i := 0 to |items|
        invariant forall j :: 0 <= j < i ==> buf[j] == items[j].value.x
      {
        buf[i] := items[i].value.x;
      }
      res := buf[..];
    }
  }
}
