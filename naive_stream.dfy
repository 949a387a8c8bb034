/**
 * naive/stream.go: the streams of the naive executor.  A slice stream hands out its
 * elements by an advancing index; a stream builder appends to one slice stream it owns
 * and hands out that same stream, so values added later are still seen by its readers.
 */
module NaiveStream {
  import opened Outcomes
  import opened LegacyValues
  import LegacyStream

  const NEXT_WHEN_NO_MORE := "next when no more"

  class SliceStream {
    var i: nat
    var vs: seq<Value>

    /** The elements Next has still to hand out, in order. */
    ghost function Remaining(): seq<Value>
      reads this
    {
      if i <= |vs| then vs[i..] else []
    }

    /** NewStreamFromElements: a stream that will hand out `elems`, all of them, in order. */
    constructor FromElements(elems: seq<Value>)
      ensures i == 0 && vs == elems && Remaining() == elems
    {
      i, vs := 0, elems;
    }

    /** More: there is an element left to hand out. */
    predicate More()
      reads this
      ensures More() <==> Remaining() != []
    {
      i < |vs|
    }

    /** Next: the element at the index, which then advances by one; past the end the indexing panics. */
    method Next() returns (r: Fatal<Value>)
      modifies this
      ensures vs == old(vs)
      ensures old(More()) ==> r == Returned(old(vs[i])) && i == old(i) + 1
      ensures old(More()) ==> [r.value] + Remaining() == old(Remaining())
      ensures !old(More()) ==> r == Panicked(LegacyStream.IndexOutOfRange(old(i), |vs|)) && i == old(i)
    {
      if i < |vs| {
        r := Returned(vs[i]);
        i := i + 1;
      } else {
        r := Panicked(LegacyStream.IndexOutOfRange(i, |vs|));
      }
    }
  }

  /** The DataStream values the naive nodes pass around: a slice stream, the empty stream, or nil. */
  datatype DataStream = Slice(s: SliceStream) | Empty | NilStream

  /** What a call on the stream may write. */
  function Footprint(d: DataStream): set<object> {
    if d.Slice? then {d.s} else {}
  }

  /** The elements a stream has still to hand out. */
  ghost function RemainingOf(d: DataStream): seq<Value>
    reads Footprint(d)
  {
    if d.Slice? then d.s.Remaining() else []
  }

  /** emptyStream: nothing to hand out, and Next panics. */
  function EmptyNext(): (r: Fatal<Value>)
    ensures r.Panicked? && r.reason == NEXT_WHEN_NO_MORE
  {
    Panicked(NEXT_WHEN_NO_MORE)
  }

  /** More through the interface; on nil it panics. */
  function MoreOf(d: DataStream): (r: Fatal<bool>)
    reads Footprint(d)
    ensures d.NilStream? <==> r == Panicked(NIL_DEREFERENCE)
    ensures !d.NilStream? ==> r == Returned(RemainingOf(d) != [])
  {
    match d
    case Slice(s) => Returned(s.More())
    case Empty => Returned(false)
    case NilStream => Panicked(NIL_DEREFERENCE)
  }

  /** Next through the interface: the first remaining element, or the panic of the implementation. */
  method NextOf(d: DataStream) returns (r: Fatal<Value>)
    modifies Footprint(d)
    ensures old(RemainingOf(d)) != [] ==> r == Returned(old(RemainingOf(d))[0]) && [r.value] + RemainingOf(d) == old(RemainingOf(d))
    ensures old(RemainingOf(d)) == [] ==> r.Panicked? && RemainingOf(d) == []
  {
    match d
    case Slice(s) =>
      r := s.Next();
    case Empty =>
      r := EmptyNext();
    case NilStream =>
      r := Panicked(NIL_DEREFERENCE);
  }

  /** NewIntValues: one int value per given int, holding the same number, in the same order. */
  method NewIntValues(ints: seq<Int64>) returns (vs: seq<Value>)
    ensures |vs| == |ints|
    ensures forall k :: 0 <= k < |ints| ==> vs[k] == IntValue(ints[k])
    ensures forall k :: 0 <= k < |ints| ==> GetInt(vs[k]) == Returned(ints[k])
  {
    vs := [];
    for k := 0 to |ints|
      invariant |vs| == k
      invariant forall j :: 0 <= j < k ==> vs[j] == IntValue(ints[j])
    {
      var v := NewValue(GoInt(ints[k]));
      vs := vs + [v.value];
    }
  }

  /**
   * sliceStreamBuilder: the slice stream it appends to.  Stream hands out that stream
   * itself, not a copy.
   */
  class StreamBuilder {
    const ss: SliceStream

    /** NewStreamBuilder: a builder over a fresh stream with nothing in it. */
    constructor ()
      ensures fresh(ss) && ss.i == 0 && ss.vs == [] && ss.Remaining() == []
    {
      ss := new SliceStream.FromElements([]);
    }

    /** Add: the value goes at the end of the stream, after every value added before it. */
    method Add(v: Value)
      modifies ss
      ensures ss.vs == old(ss.vs) + [v] && ss.i == old(ss.i)
      ensures old(ss.i) <= old(|ss.vs|) ==> ss.Remaining() == old(ss.Remaining()) + [v]
    {
      ss.vs := ss.vs + [v];
    }

    /** AddAll: the loop `for _, v := range vs { sb.Add(v) }`, which appends vs in order. */
    method AddAll(vs: seq<Value>)
      modifies ss
      ensures ss.vs == old(ss.vs) + vs && ss.i == old(ss.i)
    {
      for k := 0 to |vs|
        invariant ss.vs == old(ss.vs) + vs[..k] && ss.i == old(ss.i)
      {
        Add(vs[k]);
        assert vs[..k + 1] == vs[..k] + [vs[k]];
      }
      assert vs[..|vs|] == vs;
    }

    /** Stream: the builder's own stream. */
    method Stream() returns (d: DataStream)
      ensures d == Slice(ss)
    {
      d := Slice(ss);
    }
  }

  /** The builder's stream, read from the start, hands out the values added, in Add order. */
  method BuilderScenario(xs: seq<Value>) returns (got: seq<Value>)
    ensures got == xs
  {
    var sb := new StreamBuilder();
    sb.AddAll(xs);
    var d := sb.Stream();
    var s := d.s;
    assert s.Remaining() == xs;
    got := [];
    while s.More()
      invariant got + s.Remaining() == xs
      decreases |s.Remaining()|
    {
      var v := s.Next();
      got := got + [v.value];
    }
  }
}
