/** values/time.go: the timestamp decoration, an event time and a watermark. */
module ValuesTime {
  import opened Outcomes
  import opened Values

  /** A value whose outermost wrapper is a timestamp: what GetTimestampedValue returns. */
  predicate IsTimestamped(v: Value) {
    v.layers != [] && v.layers[0].Timed?
  }

  type TimestampedValue = v: Value | IsTimestamped(v)
    witness Value([Timed(0, 0)], Meta(Unknown))

  /** timestampedValue.Timestamp and timestampedValue.Watermark. */
  function TimestampOf(v: TimestampedValue): Timestamp {
    v.layers[0].ts
  }

  function WatermarkOf(v: TimestampedValue): Timestamp {
    v.layers[0].wm
  }

  /**
   * GetTimestampedValue: walks the chain outward-in with Unwrap and stops at the first
   * timestamp wrapper, or fails with the error of the first value that cannot be unwrapped.
   */
  method GetTimestampedValue(v: Value) returns (r: Result<TimestampedValue>)
    ensures r.Ok? ==> Lookup(v, TimeKind).Ok? && Lookup(v, TimeKind).value == r.value
    ensures r.Err? ==> Lookup(v, TimeKind) == Err(r.error)
  {
    var cur := v;
    while true
      invariant cur.base == v.base && |cur.layers| <= |v.layers|
      invariant cur.layers == v.layers[|v.layers| - |cur.layers|..]
      invariant forall j :: 0 <= j < |v.layers| - |cur.layers| ==> KindOf(v.layers[j]) != TimeKind
      decreases |cur.layers|
    {
      if cur.layers != [] && cur.layers[0].Timed? {
        return Ok(cur);
      }
      var u := Unwrap(cur);
      if u.Err? {
        return Err(u.error);
      }
      cur := u.value;
    }
  }

  /**
   * GetTime: the timestamp and watermark of the outermost timestamp wrapper, or
   * (0, 0, error) when there is none.
   */
  function GetTime(v: Value): (r: (Timestamp, Timestamp, Option<Error>))
    ensures r.2.None? <==> exists j :: 0 <= j < |v.layers| && v.layers[j].Timed?
    ensures r.2.Some? ==> r.0 == 0 && r.1 == 0 && r.2 == Some(UnwrapError(v.base))
    ensures r.2.None? ==> exists j :: 0 <= j < |v.layers| && v.layers[j] == Timed(r.0, r.1) &&
                            forall i :: 0 <= i < j ==> !v.layers[i].Timed?
  {
    match Lookup(v, TimeKind)
    case Ok(tv) => (tv.layers[0].ts, tv.layers[0].wm, None)
    case Err(e) => (0, 0, Some(e))
  }

  /**
   * SetTime: when the chain already has a timestamp wrapper, setTime overwrites both
   * its timestamp and its watermark in place; otherwise the value is wrapped in one
   * new timestamp wrapper.
   */
  function SetTime(ts: Timestamp, wm: Timestamp, v: Value): (r: Value)
    ensures r.base == v.base
  {
    match FindLayer(v.layers, TimeKind)
    case None => Value([Timed(ts, wm)] + v.layers, v.base)
    case Some(i) => Value(v.layers[i := Timed(ts, wm)], v.base)
  }

  /** The timestamp and watermark a timestamped value carries are the ones GetTime reports. */
  lemma TimestampOfIsGetTime(v: TimestampedValue)
    ensures GetTime(v) == (TimestampOf(v), WatermarkOf(v), None)
  {
  }

  /** timestampedValue.Unwrap returns the value the wrapper embeds. */
  lemma UnwrapTimed(ts: Timestamp, wm: Timestamp, inner: Value)
    ensures Unwrap(Value([Timed(ts, wm)] + inner.layers, inner.base)) == Ok(inner)
  {
    assert ([Timed(ts, wm)] + inner.layers)[1..] == inner.layers;
  }

  /** GetTime(SetTime(ts, wm, v)) == (ts, wm), for every value. */
  lemma SetTimeRoundTrip(ts: Timestamp, wm: Timestamp, v: Value)
    ensures GetTime(SetTime(ts, wm, v)) == (ts, wm, None)
  {
    var r := SetTime(ts, wm, v);
    match FindLayer(v.layers, TimeKind)
    case None =>
      assert r.layers[0] == Timed(ts, wm);
      assert FindLayer(r.layers, TimeKind) == Some(0);
    case Some(i) =>
      assert r.layers[i] == Timed(ts, wm);
      assert forall j :: 0 <= j < i ==> r.layers[j] == v.layers[j];
      assert FindLayer(r.layers, TimeKind) == Some(i);
  }

  /**
   * On a value with no timestamp wrapper, SetTime adds exactly one outermost wrapper,
   * and unwrapping once gives the original value back.
   */
  lemma SetTimeWraps(ts: Timestamp, wm: Timestamp, v: Value)
    requires forall j :: 0 <= j < |v.layers| ==> !v.layers[j].Timed?
    ensures |SetTime(ts, wm, v).layers| == |v.layers| + 1
    ensures IsTimestamped(SetTime(ts, wm, v))
    ensures Unwrap(SetTime(ts, wm, v)) == Ok(v)
    ensures GetTime(v).2.Some?
  {
    assert FindLayer(v.layers, TimeKind).None?;
    UnwrapTimed(ts, wm, v);
  }

  /**
   * On a value that already has a timestamp wrapper, SetTime overwrites both fields
   * of that wrapper: the chain keeps its length and every other wrapper is unchanged.
   */
  lemma SetTimeInPlace(ts: Timestamp, wm: Timestamp, v: Value)
    requires exists j :: 0 <= j < |v.layers| && v.layers[j].Timed?
    ensures |SetTime(ts, wm, v).layers| == |v.layers|
    ensures forall j :: 0 <= j < |v.layers| && !v.layers[j].Timed? ==> SetTime(ts, wm, v).layers[j] == v.layers[j]
    ensures SetTime(ts, wm, SetTime(ts, wm, v)) == SetTime(ts, wm, v)
  {
    var i := FindLayer(v.layers, TimeKind).value;
    var r := SetTime(ts, wm, v);
    assert r.layers == v.layers[i := Timed(ts, wm)];
    assert FindLayer(r.layers, TimeKind) == Some(i) by {
      assert KindOf(r.layers[i]) == TimeKind;
      assert forall j :: 0 <= j < i ==> r.layers[j] == v.layers[j];
      var m := FindLayer(r.layers, TimeKind);
      assert m.Some?;
      assert !(m.value < i) && !(m.value > i);
    }
    assert r.layers[i := Timed(ts, wm)] == r.layers;
  }

  /** Setting a time twice leaves one timestamp wrapper holding the second pair. */
  lemma SetTimeTwice(ts1: Timestamp, wm1: Timestamp, ts2: Timestamp, wm2: Timestamp, v: Value)
    ensures |SetTime(ts2, wm2, SetTime(ts1, wm1, v)).layers| == |SetTime(ts1, wm1, v).layers|
    ensures GetTime(SetTime(ts2, wm2, SetTime(ts1, wm1, v))) == (ts2, wm2, None)
  {
    SetTimeRoundTrip(ts1, wm1, v);
    SetTimeInPlace(ts2, wm2, SetTime(ts1, wm1, v));
    SetTimeRoundTrip(ts2, wm2, SetTime(ts1, wm1, v));
  }
}
