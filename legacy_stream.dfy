/**
 * stream.go: the pull-based data streams of the package-level revision.  A slice stream
 * hands out its elements by an advancing index; an empty stream has none and only
 * remembers its type.
 */
module LegacyStream {
  import opened Outcomes
  import opened LegacyValues

  /** The runtime panic of indexing a slice of length n at i. */
  function IndexOutOfRange(i: int, n: int): string {
    "runtime error: index out of range [" + FormatInt(i) + "] with length " + FormatInt(n)
  }

  const EMPTY_NEXT := "empty stream does not have next element"

  class SliceStream {
    var i: nat
    var vs: seq<Value>

    /** The index never passes the end of the slice. */
    ghost predicate Valid()
      reads this
    {
      i <= |vs|
    }

    /** The elements Next has still to hand out, in order. */
    ghost function Remaining(): seq<Value>
      reads this
      requires Valid()
    {
      vs[i..]
    }

    /** NewStreamFromElements: a stream that will hand out `elems`, all of them, in order. */
    constructor FromElements(elems: seq<Value>)
      ensures Valid() && Remaining() == elems
      ensures i == 0 && vs == elems
    {
      i, vs := 0, elems;
    }

    /** More: there is an element left to hand out. */
    predicate More()
      reads this
    {
      i < |vs|
    }

    /**
     * Next: the element at the index, which then advances by one.  Past the end the
     * indexing panics before the index moves.
     */
    method Next() returns (r: Fatal<Value>)
      modifies this
      ensures old(More()) ==> r == Returned(old(vs[i])) && i == old(i) + 1 && vs == old(vs)
      ensures !old(More()) ==> r == Panicked(IndexOutOfRange(old(i), |vs|)) && i == old(i) && vs == old(vs)
      ensures old(Valid()) ==> Valid()
      ensures old(Valid()) && old(More()) ==> [r.value] + Remaining() == old(Remaining())
    {
      if i < |vs| {
        r := Returned(vs[i]);
        i := i + 1;
      } else {
        r := Panicked(IndexOutOfRange(i, |vs|));
      }
    }

    /** Type: a slice stream always reports Int, whatever it holds. */
    function Type(): (t: Type)
      ensures t == Int
    {
      Int
    }
  }

  /** NewEmptyStream(t): a stream with no elements, of type t. */
  datatype EmptyStream = EmptyStream(t: Type) {
    predicate More() {
      false
    }

    /** Next on an empty stream always panics. */
    function Next(): (r: Fatal<Value>)
      ensures r == Panicked(EMPTY_NEXT)
    {
      Panicked(EMPTY_NEXT)
    }

    function Type(): (r: Type)
      ensures r == t
    {
      t
    }
  }

  /** The DataStream interface: one of the two implementations. */
  datatype DataStream = Slice(s: SliceStream) | Empty(e: EmptyStream)

  /** What a call on the stream may write. */
  function Footprint(d: DataStream): set<object> {
    if d.Slice? then {d.s} else {}
  }

  ghost predicate ValidStream(d: DataStream)
    reads Footprint(d)
  {
    d.Slice? ==> d.s.Valid()
  }

  /** The elements a stream has still to hand out. */
  ghost function RemainingOf(d: DataStream): seq<Value>
    reads Footprint(d)
    requires ValidStream(d)
  {
    if d.Slice? then d.s.Remaining() else []
  }

  predicate MoreOf(d: DataStream)
    reads Footprint(d)
  {
    match d
    case Slice(s) => s.More()
    case Empty(e) => e.More()
  }

  /** More holds exactly when there is something left to hand out. */
  lemma MoreIsRemaining(d: DataStream)
    requires ValidStream(d)
    ensures MoreOf(d) <==> RemainingOf(d) != []
  {
    if d.Slice? {
      assert d.s.More() <==> |d.s.vs[d.s.i..]| > 0;
    }
  }

  function TypeOfStream(d: DataStream): (t: Type)
    ensures d.Slice? ==> t == Int
    ensures d.Empty? ==> t == d.e.t
  {
    match d
    case Slice(s) => s.Type()
    case Empty(e) => e.Type()
  }

  /** Next through the interface: the first remaining element, or the panic of the implementation. */
  method NextOf(d: DataStream) returns (r: Fatal<Value>)
    requires ValidStream(d)
    modifies Footprint(d)
    ensures ValidStream(d)
    ensures old(RemainingOf(d)) != [] ==> r == Returned(old(RemainingOf(d))[0]) && RemainingOf(d) == old(RemainingOf(d))[1..]
    ensures old(RemainingOf(d)) == [] ==> r.Panicked? && RemainingOf(d) == []
  {
    match d
    case Slice(s) =>
      r := s.Next();
    case Empty(e) =>
      r := e.Next();
  }

  /**
   * NewIntValues: one int value per given int, holding the same number, in the same
   * order.  Each is built by NewValue on a Go `int`.
   */
  method NewIntValues(ints: seq<Int64>) returns (vs: seq<Value>)
    ensures |vs| == |ints|
    ensures forall k :: 0 <= k < |ints| ==> vs[k] == IntValue(ints[k])
    ensures forall k :: 0 <= k < |ints| ==> GetInt(vs[k]) == Returned(ints[k])
  {
    vs := [];
    var k := 0;
    while k < |ints|
      invariant 0 <= k <= |ints|
      invariant |vs| == k
      invariant forall j :: 0 <= j < k ==> vs[j] == IntValue(ints[j])
    {
      var v := NewValue(GoInt(ints[k]));
      vs := vs + [v.value];
      k := k + 1;
    }
  }

  /** A client loop `for s.More() { s.Next() }`: it receives exactly the remaining elements, in order. */
  method Drain(d: DataStream) returns (got: seq<Value>)
    requires ValidStream(d)
    modifies Footprint(d)
    ensures ValidStream(d)
    ensures got == old(RemainingOf(d))
    ensures RemainingOf(d) == [] && !MoreOf(d)
  {
    got := [];
    MoreIsRemaining(d);
    while MoreOf(d)
      invariant ValidStream(d)
      invariant got + RemainingOf(d) == old(RemainingOf(d))
      invariant MoreOf(d) <==> RemainingOf(d) != []
      decreases |RemainingOf(d)|
    {
      ghost var before := RemainingOf(d);
      var v := NextOf(d);
      got := got + [v.value];
      assert before == [v.value] + RemainingOf(d);
      MoreIsRemaining(d);
    }
  }
}
