/** values/source.go: the source decoration, the index of the input a value came from. */
module ValuesSource {
  import opened Outcomes
  import opened Values

  /**
   * GetValueWithSource: walks the chain outward-in with Unwrap and stops at the first
   * source wrapper, or fails with the error of the first value that cannot be unwrapped.
   */
  method GetValueWithSource(v: Value) returns (r: Result<Value>)
    ensures r == Lookup(v, SourceKind)
  {
    var cur := v;
    while true
      invariant cur.base == v.base && |cur.layers| <= |v.layers|
      invariant cur.layers == v.layers[|v.layers| - |cur.layers|..]
      invariant forall j :: 0 <= j < |v.layers| - |cur.layers| ==> KindOf(v.layers[j]) != SourceKind
      decreases |cur.layers|
    {
      if cur.layers != [] && cur.layers[0].Sourced? {
        return Ok(cur);
      }
      var u := Unwrap(cur);
      if u.Err? {
        return Err(u.error);
      }
      cur := u.value;
    }
  }

  /** GetSource: the source of the outermost source wrapper, or (0, error) when there is none. */
  function GetSource(v: Value): (r: (Source, Option<Error>))
    ensures r.1.None? <==> exists j :: 0 <= j < |v.layers| && v.layers[j].Sourced?
    ensures r.1.Some? ==> r.0 == 0 && r.1 == Some(UnwrapError(v.base))
    ensures r.1.None? ==> exists j :: 0 <= j < |v.layers| && v.layers[j] == Sourced(r.0) &&
                            forall i :: 0 <= i < j ==> !v.layers[i].Sourced?
  {
    match Lookup(v, SourceKind)
    case Ok(sv) => (sv.layers[0].source, None)
    case Err(e) => (0, Some(e))
  }

  /**
   * SetSource: when the chain already has a source wrapper, setSource overwrites it
   * in place; otherwise the value is wrapped in one new source wrapper.
   */
  function SetSource(s: Source, v: Value): (r: Value)
    ensures r.base == v.base
  {
    match FindLayer(v.layers, SourceKind)
    case None => Value([Sourced(s)] + v.layers, v.base)
    case Some(i) => Value(v.layers[i := Sourced(s)], v.base)
  }

  /** valueWithSource.Unwrap returns the value the wrapper embeds. */
  lemma UnwrapSourced(s: Source, inner: Value)
    ensures Unwrap(Value([Sourced(s)] + inner.layers, inner.base)) == Ok(inner)
  {
    assert ([Sourced(s)] + inner.layers)[1..] == inner.layers;
  }

  /** GetSource(SetSource(s, v)) == s, for every value. */
  lemma SetSourceRoundTrip(s: Source, v: Value)
    ensures GetSource(SetSource(s, v)) == (s, None)
  {
    var r := SetSource(s, v);
    match FindLayer(v.layers, SourceKind)
    case None =>
      assert r.layers[0] == Sourced(s);
      assert FindLayer(r.layers, SourceKind) == Some(0);
    case Some(i) =>
      assert r.layers[i] == Sourced(s);
      assert forall j :: 0 <= j < i ==> r.layers[j] == v.layers[j];
      assert FindLayer(r.layers, SourceKind) == Some(i);
  }

  /**
   * On a value with no source wrapper, SetSource adds exactly one outermost wrapper,
   * and unwrapping once gives the original value back.
   */
  lemma SetSourceWraps(s: Source, v: Value)
    requires forall j :: 0 <= j < |v.layers| ==> !v.layers[j].Sourced?
    ensures |SetSource(s, v).layers| == |v.layers| + 1
    ensures SetSource(s, v).layers[0] == Sourced(s)
    ensures Unwrap(SetSource(s, v)) == Ok(v)
    ensures GetSource(v).1.Some?
  {
    assert FindLayer(v.layers, SourceKind).None?;
    UnwrapSourced(s, v);
  }

  /**
   * On a value that already has a source wrapper, outermost or inner, SetSource
   * overwrites it: the chain keeps its length and every other wrapper is unchanged.
   */
  lemma SetSourceInPlace(s: Source, v: Value)
    requires exists j :: 0 <= j < |v.layers| && v.layers[j].Sourced?
    ensures |SetSource(s, v).layers| == |v.layers|
    ensures forall j :: 0 <= j < |v.layers| && !v.layers[j].Sourced? ==> SetSource(s, v).layers[j] == v.layers[j]
    ensures SetSource(s, SetSource(s, v)) == SetSource(s, v)
  {
    var i := FindLayer(v.layers, SourceKind).value;
    var r := SetSource(s, v);
    assert r.layers == v.layers[i := Sourced(s)];
    assert FindLayer(r.layers, SourceKind) == Some(i) by {
      assert KindOf(r.layers[i]) == SourceKind;
      assert forall j :: 0 <= j < i ==> r.layers[j] == v.layers[j];
      var m := FindLayer(r.layers, SourceKind);
      assert m.Some?;
      assert !(m.value < i) && !(m.value > i);
    }
    assert r.layers[i := Sourced(s)] == r.layers;
  }

  /** Setting a source twice leaves one source wrapper holding the second source. */
  lemma SetSourceTwice(s1: Source, s2: Source, v: Value)
    ensures |SetSource(s2, SetSource(s1, v)).layers| == |SetSource(s1, v).layers|
    ensures GetSource(SetSource(s2, SetSource(s1, v))) == (s2, None)
  {
    SetSourceRoundTrip(s1, v);
    SetSourceInPlace(s2, SetSource(s1, v));
    SetSourceRoundTrip(s2, SetSource(s1, v));
  }
}
