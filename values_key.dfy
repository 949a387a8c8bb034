/** values/key.go: the key decoration. */
module ValuesKey {
  import opened Outcomes
  import opened Values

  /**
   * GetKeyedValue: walks the chain outward-in with Unwrap and stops at the first
   * keyed wrapper, or fails with the error of the first value that cannot be unwrapped.
   */
  method GetKeyedValue(v: Value) returns (r: Result<Value>)
    ensures r == Lookup(v, KeyKind)
  {
    var cur := v;
    while true
      invariant cur.base == v.base && |cur.layers| <= |v.layers|
      invariant cur.layers == v.layers[|v.layers| - |cur.layers|..]
      invariant forall j :: 0 <= j < |v.layers| - |cur.layers| ==> KindOf(v.layers[j]) != KeyKind
      decreases |cur.layers|
    {
      if cur.layers != [] && cur.layers[0].Keyed? {
        return Ok(cur);
      }
      var u := Unwrap(cur);
      if u.Err? {
        return Err(u.error);
      }
      cur := u.value;
    }
  }

  /** GetKey: the key of the outermost keyed wrapper, or (0, error) when there is none. */
  function GetKey(v: Value): (r: (Key, Option<Error>))
    ensures r.1.None? <==> exists j :: 0 <= j < |v.layers| && v.layers[j].Keyed?
    ensures r.1.Some? ==> r.0 == 0 && r.1 == Some(UnwrapError(v.base))
    ensures r.1.None? ==> exists j :: 0 <= j < |v.layers| && v.layers[j] == Keyed(r.0) &&
                            forall i :: 0 <= i < j ==> !v.layers[i].Keyed?
  {
    match Lookup(v, KeyKind)
    case Ok(kv) => (kv.layers[0].key, None)
    case Err(e) => (0, Some(e))
  }

  /**
   * SetKey: when the chain already has a keyed wrapper, setKey overwrites it in
   * place; otherwise the value is wrapped in one new keyed wrapper.
   */
  function SetKey(k: Key, v: Value): (r: Value)
    ensures r.base == v.base
  {
    match FindLayer(v.layers, KeyKind)
    case None => Value([Keyed(k)] + v.layers, v.base)
    case Some(i) => Value(v.layers[i := Keyed(k)], v.base)
  }

  /** keyedValue.Unwrap returns the value the wrapper embeds. */
  lemma UnwrapKeyed(k: Key, inner: Value)
    ensures Unwrap(Value([Keyed(k)] + inner.layers, inner.base)) == Ok(inner)
  {
    assert ([Keyed(k)] + inner.layers)[1..] == inner.layers;
  }

  /** GetKey(SetKey(k, v)) == k, for every value. */
  lemma SetKeyRoundTrip(k: Key, v: Value)
    ensures GetKey(SetKey(k, v)) == (k, None)
  {
    var r := SetKey(k, v);
    match FindLayer(v.layers, KeyKind)
    case None =>
      assert r.layers[0] == Keyed(k);
      assert FindLayer(r.layers, KeyKind) == Some(0);
    case Some(i) =>
      assert r.layers[i] == Keyed(k);
      assert forall j :: 0 <= j < i ==> r.layers[j] == v.layers[j];
      assert FindLayer(r.layers, KeyKind) == Some(i);
  }

  /**
   * On a value with no keyed wrapper, SetKey adds exactly one outermost wrapper, and
   * unwrapping once gives the original value back, which still has no key.
   */
  lemma SetKeyWraps(k: Key, v: Value)
    requires forall j :: 0 <= j < |v.layers| ==> !v.layers[j].Keyed?
    ensures |SetKey(k, v).layers| == |v.layers| + 1
    ensures SetKey(k, v).layers[0] == Keyed(k)
    ensures Unwrap(SetKey(k, v)) == Ok(v)
    ensures GetKey(v).1.Some?
  {
    assert FindLayer(v.layers, KeyKind).None?;
    UnwrapKeyed(k, v);
  }

  /**
   * On a value that already has a keyed wrapper, SetKey overwrites that wrapper: the
   * chain keeps its length and every other wrapper is unchanged.
   */
  lemma SetKeyInPlace(k: Key, v: Value)
    requires exists j :: 0 <= j < |v.layers| && v.layers[j].Keyed?
    ensures |SetKey(k, v).layers| == |v.layers|
    ensures forall j :: 0 <= j < |v.layers| && !v.layers[j].Keyed? ==> SetKey(k, v).layers[j] == v.layers[j]
    ensures SetKey(k, SetKey(k, v)) == SetKey(k, v)
  {
    var i := FindLayer(v.layers, KeyKind).value;
    var r := SetKey(k, v);
    assert r.layers == v.layers[i := Keyed(k)];
    assert FindLayer(r.layers, KeyKind) == Some(i) by {
      assert KindOf(r.layers[i]) == KeyKind;
      assert forall j :: 0 <= j < i ==> r.layers[j] == v.layers[j];
      var m := FindLayer(r.layers, KeyKind);
      assert m.Some?;
      assert !(m.value < i) && !(m.value > i);
    }
    assert r.layers[i := Keyed(k)] == r.layers;
  }

  /** Setting a key twice leaves one keyed wrapper holding the second key. */
  lemma SetKeyTwice(k1: Key, k2: Key, v: Value)
    ensures |SetKey(k2, SetKey(k1, v)).layers| == |SetKey(k1, v).layers|
    ensures GetKey(SetKey(k2, SetKey(k1, v))) == (k2, None)
  {
    SetKeyRoundTrip(k1, v);
    SetKeyInPlace(k2, SetKey(k1, v));
    SetKeyRoundTrip(k2, SetKey(k1, v));
  }
}
