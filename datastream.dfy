/** datastream.go: slice streams over a fixed sequence, and the buffered stream between operators. */
module DataStream {
  import opened Outcomes
  import opened Values

  /** values.New on an int64: an Int64 value holding the number. */
  function IntValue(i: int): Value {
    Value([], Plain(Int64, i))
  }

  /** NewIntValues: one value per number, in the same order. */
  method NewIntValues(ints: seq<int>) returns (vs: seq<Value>)
    ensures |vs| == |ints|
    ensures forall j :: 0 <= j < |ints| ==> vs[j] == IntValue(ints[j])
  {
    vs := [];
    for j := 0 to |ints|
      invariant |vs| == j
      invariant forall m :: 0 <= m < j ==> vs[m] == IntValue(ints[m])
    {
      vs := vs + [IntValue(ints[j])];
    }
  }

  /** sliceStream: a stream over fixed elements, read through an index. */
  class SliceStream {
    const vs: seq<Value>
    var i: int
    /** The values Next has returned so far. */
    ghost var served: seq<Value>

    ghost predicate Valid()
      reads this
    {
      0 <= i <= |vs| && served == vs[..i]
    }

    /** NewStreamFromElements. */
    constructor (elems: seq<Value>)
      ensures vs == elems && i == 0 && served == [] && Valid()
    {
      vs := elems;
      i := 0;
      served := [];
    }

    /**
     * Next: the element at the index, which then advances; nil, with the index left
     * where it is, once every element has been returned.
     */
    method Next() returns (r: Option<Value>)
      requires Valid()
      modifies this
      ensures Valid()
      ensures old(i) < |vs| ==> r == Some(vs[old(i)]) && i == old(i) + 1 && served == old(served) + [r.value]
      ensures old(i) >= |vs| ==> r == None && i == old(i) && served == old(served)
    {
      if i >= |vs| {
        return None;
      }
      r := Some(vs[i]);
      i := i + 1;
      served := served + [r.value];
      assert vs[..i] == vs[..i - 1] + [vs[i - 1]];
    }

    /** Once the elements are exhausted, everything returned is exactly the elements, in order. */
    lemma ServedAll()
      requires Valid() && i == |vs|
      ensures served == vs
    {
      assert vs[..|vs|] == vs;
    }
  }

  /** defaultBufferSize: the capacity of every stream's channel. */
  const DEFAULT_BUFFER_SIZE: int := 1024

  /**
   * infiniteStream: a buffered channel of values, closed when the close sentinel is
   * read from it.  buf holds the values in the channel, oldest first.
   */
  class InfiniteStream {
    var buf: seq<Value>
    var bufferSize: int
    /** The channel's capacity, fixed when make created it. */
    const capacity: int
    var closed: bool
    /** Every value ever collected, and every value Next has taken out, in order. */
    ghost var collected: seq<Value>
    ghost var taken: seq<Value>

    ghost predicate Valid()
      reads this
    {
      capacity == DEFAULT_BUFFER_SIZE && |buf| <= capacity && collected == taken + buf
    }

    /** NewInfiniteStream: an empty, open channel of capacity defaultBufferSize. */
    constructor ()
      ensures Valid() && buf == [] && !closed && bufferSize == DEFAULT_BUFFER_SIZE
      ensures collected == [] && taken == []
    {
      bufferSize := DEFAULT_BUFFER_SIZE;
      capacity := DEFAULT_BUFFER_SIZE;
      buf := [];
      closed := false;
      collected := [];
      taken := [];
    }

    /**
     * Collect: a send on the channel.  A full channel blocks the sender, which is a
     * precondition here; a send on a closed channel is fatal.
     */
    method Collect(v: Value) returns (r: Fatal<()>)
      requires Valid() && |buf| < capacity
      modifies this
      ensures Valid() && closed == old(closed) && bufferSize == old(bufferSize)
      ensures old(closed) ==> r.Panicked? && buf == old(buf) && collected == old(collected) && taken == old(taken)
      ensures !old(closed) ==> r == Returned(()) && buf == old(buf) + [v] &&
                               collected == old(collected) + [v] && taken == old(taken)
    {
      if closed {
        return Panicked("send on closed channel");
      }
      buf := buf + [v];
      collected := collected + [v];
      return Returned(());
    }

    /** close: marks the stream closed and closes the channel; closing it twice is fatal. */
    method Close() returns (r: Fatal<()>)
      requires Valid()
      modifies this
      ensures Valid() && closed && buf == old(buf) && bufferSize == old(bufferSize)
      ensures collected == old(collected) && taken == old(taken)
      ensures old(closed) <==> r.Panicked?
    {
      if closed {
        return Panicked("close of closed channel");
      }
      closed := true;
      return Returned(());
    }

    /**
     * Next: takes the oldest value from the channel.  The close sentinel is not returned:
     * it closes the stream and Next returns nil.  An empty open channel blocks the
     * receiver (a precondition here); an empty closed channel yields Go's nil value, on
     * which the type check is fatal.
     */
    method Next() returns (r: Fatal<Option<Value>>)
      requires Valid() && (buf != [] || closed)
      modifies this
      ensures Valid() && bufferSize == old(bufferSize) && collected == old(collected)
      ensures old(buf) == [] ==> r.Panicked? && buf == [] && taken == old(taken)
      ensures old(buf) != [] ==> buf == old(buf)[1..] && taken == old(taken) + [old(buf)[0]]
      ensures old(buf) != [] && !IsClose(old(buf)[0]) ==> r == Returned(Some(old(buf)[0])) && closed == old(closed)
      ensures old(buf) != [] && IsClose(old(buf)[0]) ==> closed && (r.Panicked? <==> old(closed)) && r != Returned(Some(old(buf)[0]))
      ensures old(buf) != [] && IsClose(old(buf)[0]) && !old(closed) ==> r == Returned(None)
    {
      if buf == [] {
        return Panicked(NIL_DEREFERENCE);
      }
      var v := buf[0];
      buf := buf[1..];
      taken := taken + [v];
      if IsClose(v) {
        var c := Close();
        if c.Panicked? {
          return Panicked(c.reason);
        }
        return Returned(None);
      }
      return Returned(Some(v));
    }
  }

  /**
   * The first-in first-out law: after n values v1..vn are collected into a new stream,
   * n calls of Next that each return a value return v1..vn in that order.
   */
  method CollectThenDrain(vs: seq<Value>) returns (out: seq<Value>)
    requires |vs| <= DEFAULT_BUFFER_SIZE
    requires forall j :: 0 <= j < |vs| ==> !IsClose(vs[j])
    ensures out == vs
  {
    var s := new InfiniteStream();
    for j := 0 to |vs|
      invariant s.Valid() && !s.closed && s.buf == vs[..j]
    {
      var _ := s.Collect(vs[j]);
      assert vs[..j + 1] == vs[..j] + [vs[j]];
    }
    out := [];
    for j := 0 to |vs|
      invariant s.Valid() && !s.closed && s.buf == vs[j..] && out == vs[..j]
    {
      var r := s.Next();
      out := out + [r.value.value];
      assert vs[..j + 1] == vs[..j] + [vs[j]];
    }
  }

  /** Collecting values and then the sentinel: the reader gets the values, then nil, and the stream is closed. */
  method CloseEndsStream(vs: seq<Value>) returns (out: seq<Value>, last: Fatal<Option<Value>>, closed: bool)
    requires |vs| < DEFAULT_BUFFER_SIZE
    requires forall j :: 0 <= j < |vs| ==> !IsClose(vs[j])
    ensures out == vs && last == Returned(None) && closed
  {
    var s := new InfiniteStream();
    for j := 0 to |vs|
      invariant s.Valid() && !s.closed && s.buf == vs[..j]
    {
      var _ := s.Collect(vs[j]);
      assert vs[..j + 1] == vs[..j] + [vs[j]];
    }
    var _ := s.Collect(CloseValue);
    out := [];
    for j := 0 to |vs|
      invariant s.Valid() && !s.closed && s.buf == vs[j..] + [CloseValue] && out == vs[..j]
    {
      var r := s.Next();
      out := out + [r.value.value];
      assert vs[..j + 1] == vs[..j] + [vs[j]];
    }
    last := s.Next();
    closed := s.closed;
  }
}
