/**
 * Clone over decoration chains (keyedValue.Clone, valueWithSource.Clone,
 * timestampedValue.Clone and meta.Clone dispatch on the outermost wrapper), and the
 * laws that relate the three decorations to each other.
 */
module ValuesChain {
  import opened Outcomes
  import opened Values
  import opened ValuesKey
  import opened ValuesSource
  import opened ValuesTime

  /**
   * Clone of a base value: meta.Clone rebuilds the meta; List.Clone adds the same
   * elements, in order, to a new list of the same type; other base values copy themselves.
   */
  function CloneBase(b: Base): (r: Base)
    ensures r == b
  {
    match b
    case Meta(t) => Meta(t)
    case Plain(t, p) => Plain(t, p)
    case Null(t) => Null(t)
    case Listed(t, es) => Listed(t, es)
  }

  /**
   * Clone: a wrapper clones the value it embeds and sets its own decoration on the
   * clone with SetKey, SetSource or SetTime.
   */
  function Clone(v: Value): Value
    decreases |v.layers|
  {
    if v.layers == [] then Value([], CloneBase(v.base))
    else
      SetLayer(v.layers[0], Clone(Value(v.layers[1..], v.base)))
  }

  /** The outermost wrapper of a kind, which is all that GetKey, GetSource and GetTime read. */
  function Outermost(v: Value, kind: Kind): (r: Option<Layer>)
    ensures r.Some? ==> KindOf(r.value) == kind
  {
    match FindLayer(v.layers, kind)
    case None => None
    case Some(i) => Some(v.layers[i])
  }

  /** Wrapping a value in a wrapper of another kind does not change its outermost wrapper of a kind. */
  lemma OutermostShift(l: Layer, v: Value, kind: Kind)
    requires KindOf(l) != kind
    ensures Outermost(Value([l] + v.layers, v.base), kind) == Outermost(v, kind)
  {
    var w := [l] + v.layers;
    assert w[1..] == v.layers;
  }

  /** Overwriting a wrapper with one of the same kind keeps the outermost wrapper of every other kind. */
  lemma OutermostReplace(v: Value, i: nat, l: Layer, kind: Kind)
    requires i < |v.layers| && KindOf(v.layers[i]) == KindOf(l) && KindOf(l) != kind
    ensures Outermost(Value(v.layers[i := l], v.base), kind) == Outermost(v, kind)
  {
    var w := v.layers[i := l];
    var a, b := FindLayer(w, kind), FindLayer(v.layers, kind);
    assert forall j :: 0 <= j < |v.layers| ==> KindOf(w[j]) == KindOf(v.layers[j]);
    if a.Some? && b.Some? {
      assert !(a.value < b.value) && !(b.value < a.value);
    }
    assert a == b;
  }

  /** SetKey leaves the source and the time of a value as they were. */
  lemma SetKeyKeepsOthers(k: Key, v: Value)
    ensures GetSource(SetKey(k, v)) == GetSource(v)
    ensures GetTime(SetKey(k, v)) == GetTime(v)
  {
    var r := SetKey(k, v);
    match FindLayer(v.layers, KeyKind)
    case None =>
      OutermostShift(Keyed(k), v, SourceKind);
      OutermostShift(Keyed(k), v, TimeKind);
      Decorations(r, v);
    case Some(i) =>
      OutermostReplace(v, i, Keyed(k), SourceKind);
      OutermostReplace(v, i, Keyed(k), TimeKind);
      Decorations(r, v);
  }

  /** SetSource leaves the key and the time of a value as they were. */
  lemma SetSourceKeepsOthers(s: Source, v: Value)
    ensures GetKey(SetSource(s, v)) == GetKey(v)
    ensures GetTime(SetSource(s, v)) == GetTime(v)
  {
    var r := SetSource(s, v);
    match FindLayer(v.layers, SourceKind)
    case None =>
      OutermostShift(Sourced(s), v, KeyKind);
      OutermostShift(Sourced(s), v, TimeKind);
      Decorations(r, v);
    case Some(i) =>
      OutermostReplace(v, i, Sourced(s), KeyKind);
      OutermostReplace(v, i, Sourced(s), TimeKind);
      Decorations(r, v);
  }

  /** SetTime leaves the key and the source of a value as they were. */
  lemma SetTimeKeepsOthers(ts: Timestamp, wm: Timestamp, v: Value)
    ensures GetKey(SetTime(ts, wm, v)) == GetKey(v)
    ensures GetSource(SetTime(ts, wm, v)) == GetSource(v)
  {
    var r := SetTime(ts, wm, v);
    match FindLayer(v.layers, TimeKind)
    case None =>
      OutermostShift(Timed(ts, wm), v, KeyKind);
      OutermostShift(Timed(ts, wm), v, SourceKind);
      Decorations(r, v);
    case Some(i) =>
      OutermostReplace(v, i, Timed(ts, wm), KeyKind);
      OutermostReplace(v, i, Timed(ts, wm), SourceKind);
      Decorations(r, v);
  }

  /** Each decoration is read off the outermost wrapper of its kind. */
  lemma Decorations(v: Value, w: Value)
    requires v.base == w.base
    ensures Outermost(v, KeyKind) == Outermost(w, KeyKind) ==> GetKey(v) == GetKey(w)
    ensures Outermost(v, SourceKind) == Outermost(w, SourceKind) ==> GetSource(v) == GetSource(w)
    ensures Outermost(v, TimeKind) == Outermost(w, TimeKind) ==> GetTime(v) == GetTime(w)
  {
    LookupOutermost(v, KeyKind);
    LookupOutermost(w, KeyKind);
    LookupOutermost(v, SourceKind);
    LookupOutermost(w, SourceKind);
    LookupOutermost(v, TimeKind);
    LookupOutermost(w, TimeKind);
  }

  /** A search finds the outermost wrapper of its kind, or fails with the base's error. */
  lemma LookupOutermost(v: Value, kind: Kind)
    ensures Outermost(v, kind).None? ==> Lookup(v, kind) == Err(UnwrapError(v.base))
    ensures Outermost(v, kind).Some? ==> Lookup(v, kind).Ok? && Lookup(v, kind).value.layers[0] == Outermost(v, kind).value
  {
  }

  /** The outermost wrapper of each kind in a clone is the one of the value. */
  lemma {:induction false} CloneOutermost(v: Value, kind: Kind)
    ensures Outermost(Clone(v), kind) == Outermost(v, kind)
    ensures Clone(v).base == v.base
    decreases |v.layers|
  {
    if v.layers != [] {
      var tail := Value(v.layers[1..], v.base);
      var inner := Clone(tail);
      CloneOutermost(tail, kind);
      var l := v.layers[0];
      assert v.layers == [l] + tail.layers;
      if KindOf(l) == kind {
        assert FindLayer(v.layers, kind) == Some(0);
        SetOutermost(l, inner);
      } else {
        OutermostShift(l, tail, kind);
        SetKeepsOutermost(l, inner, kind);
      }
    }
  }

  /** The wrapper step of Clone: the Set function of the layer's own kind. */
  function SetLayer(l: Layer, v: Value): (r: Value)
    ensures r.base == v.base
  {
    match l
    case Keyed(k) => SetKey(k, v)
    case Sourced(s) => SetSource(s, v)
    case Timed(ts, wm) => SetTime(ts, wm, v)
  }

  /** After a Set, the outermost wrapper of its kind is the one it set. */
  lemma SetOutermost(l: Layer, v: Value)
    ensures Outermost(SetLayer(l, v), KindOf(l)) == Some(l)
  {
    var r := SetLayer(l, v);
    match FindLayer(v.layers, KindOf(l))
    case None =>
      assert r.layers[0] == l;
      assert FindLayer(r.layers, KindOf(l)) == Some(0);
    case Some(i) =>
      assert r.layers == v.layers[i := l];
      assert FindLayer(r.layers, KindOf(l)) == Some(i) by {
        assert KindOf(r.layers[i]) == KindOf(l);
        assert forall j :: 0 <= j < i ==> r.layers[j] == v.layers[j];
        var m := FindLayer(r.layers, KindOf(l));
        assert m.Some?;
        assert !(m.value < i) && !(m.value > i);
      }
  }

  /** A Set keeps the outermost wrapper of every other kind. */
  lemma SetKeepsOutermost(l: Layer, v: Value, kind: Kind)
    requires KindOf(l) != kind
    ensures Outermost(SetLayer(l, v), kind) == Outermost(v, kind)
  {
    match FindLayer(v.layers, KindOf(l))
    case None =>
      OutermostShift(l, v, kind);
    case Some(i) =>
      OutermostReplace(v, i, l, kind);
  }

  /** Clone keeps every decoration: the key, the source and the time of a clone are those of the value. */
  lemma CloneKeepsDecorations(v: Value)
    ensures GetKey(Clone(v)) == GetKey(v)
    ensures GetSource(Clone(v)) == GetSource(v)
    ensures GetTime(Clone(v)) == GetTime(v)
    ensures Clone(v).base == v.base
  {
    CloneOutermost(v, KeyKind);
    CloneOutermost(v, SourceKind);
    CloneOutermost(v, TimeKind);
    Decorations(Clone(v), v);
  }

  /**
   * On a chain with at most one wrapper of each kind, Clone rebuilds the same chain:
   * each wrapper's Set finds no wrapper of its kind inside and wraps the inner clone.
   */
  lemma {:induction false} CloneWellFormed(v: Value)
    requires WellFormed(v)
    ensures Clone(v) == v
    decreases |v.layers|
  {
    if v.layers != [] {
      var tail := Value(v.layers[1..], v.base);
      assert WellFormed(tail) by {
        forall i, j | 0 <= i < j < |tail.layers|
          ensures KindOf(tail.layers[i]) != KindOf(tail.layers[j])
        {
          assert tail.layers[i] == v.layers[i + 1] && tail.layers[j] == v.layers[j + 1];
        }
      }
      CloneWellFormed(tail);
      var kind := KindOf(v.layers[0]);
      assert forall j :: 0 <= j < |tail.layers| ==> KindOf(tail.layers[j]) != kind by {
        forall j | 0 <= j < |tail.layers| ensures KindOf(tail.layers[j]) != kind {
          assert tail.layers[j] == v.layers[j + 1];
        }
      }
      assert FindLayer(tail.layers, kind).None?;
      assert [v.layers[0]] + tail.layers == v.layers;
    }
  }

  /** SetKey keeps a chain well formed. */
  lemma SetKeyWellFormed(k: Key, v: Value)
    requires WellFormed(v)
    ensures WellFormed(SetKey(k, v))
  {
    SetWellFormed(Keyed(k), v);
  }

  /** SetSource keeps a chain well formed. */
  lemma SetSourceWellFormed(s: Source, v: Value)
    requires WellFormed(v)
    ensures WellFormed(SetSource(s, v))
  {
    SetWellFormed(Sourced(s), v);
  }

  /** SetTime keeps a chain well formed. */
  lemma SetTimeWellFormed(ts: Timestamp, wm: Timestamp, v: Value)
    requires WellFormed(v)
    ensures WellFormed(SetTime(ts, wm, v))
  {
    SetWellFormed(Timed(ts, wm), v);
  }

  /** The common step of the three Set functions: overwrite the wrapper of the same kind, or wrap. */
  lemma SetWellFormed(l: Layer, v: Value)
    requires WellFormed(v)
    ensures WellFormed(match FindLayer(v.layers, KindOf(l))
                       case None => Value([l] + v.layers, v.base)
                       case Some(i) => Value(v.layers[i := l], v.base))
  {
    match FindLayer(v.layers, KindOf(l))
    case None =>
      var w := [l] + v.layers;
      forall i, j | 0 <= i < j < |w| ensures KindOf(w[i]) != KindOf(w[j]) {
        if i > 0 {
          assert w[i] == v.layers[i - 1] && w[j] == v.layers[j - 1];
        } else {
          assert w[j] == v.layers[j - 1];
        }
      }
    case Some(m) =>
      var w := v.layers[m := l];
      forall i, j | 0 <= i < j < |w| ensures KindOf(w[i]) != KindOf(w[j]) {
        assert KindOf(w[i]) == KindOf(v.layers[i]) && KindOf(w[j]) == KindOf(v.layers[j]);
      }
  }

  /** The Set functions build well-formed chains from a base value. */
  lemma BaseWellFormed(b: Base)
    ensures WellFormed(Value([], b))
  {
  }
}
