/**
 * naive/node.go: the three node kinds of the naive executor.  A source hands on the
 * stream it was given; a mapper drains its input through a function and hands on a new
 * stream of the results; a sink drains every stream it is given into its list of values.
 * The Go types are three structs behind one interface; here they are one class whose
 * constant `kind` says which of the three a node is.
 */
module NaiveNode {
  import opened Outcomes
  import opened LegacyValues
  import opened NaiveStream

  /** The mapper's function returns the values for one input, or panics. */
  type MapFunc = Value -> Fatal<seq<Value>>

  datatype Kind = Source | Mapper(f: MapFunc) | Sink

  const SINK_OUT := "cannot take out stream of sink"

  /**
   * What the mapper's loop hands on for the inputs xs, in order: the results of f on each
   * input, concatenated, or the first panic of f.
   */
  function FlatMap(f: MapFunc, xs: seq<Value>): Fatal<seq<Value>> {
    if xs == [] then Returned([])
    else
      match FlatMap(f, xs[..|xs| - 1])
      case Panicked(why) => Panicked(why)
      case Returned(ys) =>
        match f(xs[|xs| - 1])
        case Panicked(why) => Panicked(why)
        case Returned(zs) => Returned(ys + zs)
  }

  /** A function giving one value for each of the inputs maps them one for one, in order. */
  lemma {:induction false} FlatMapOneEach(f: MapFunc, g: Value -> Value, xs: seq<Value>)
    requires forall k :: 0 <= k < |xs| ==> f(xs[k]) == Returned([g(xs[k])])
    ensures FlatMap(f, xs).Returned? && |FlatMap(f, xs).value| == |xs|
    ensures forall k :: 0 <= k < |xs| ==> FlatMap(f, xs).value[k] == g(xs[k])
    decreases |xs|
  {
    if xs != [] {
      var init := xs[..|xs| - 1];
      assert forall k :: 0 <= k < |init| ==> init[k] == xs[k];
      FlatMapOneEach(f, g, init);
      assert f(xs[|xs| - 1]) == Returned([g(xs[|xs| - 1])]);
      assert FlatMap(f, xs).value == FlatMap(f, init).value + [g(xs[|xs| - 1])];
    }
  }

  class Node {
    const kind: Kind
    /** The input stream of a source or a mapper; nil until In is called on a mapper. */
    var ds: DataStream
    /** What a sink has received, in order. */
    var values: seq<Value>

    /** NewSource: a source over ds (the Go code calls In(ds) on the new node). */
    constructor NewSource(d: DataStream)
      ensures kind == Source && ds == d && values == []
    {
      kind, ds, values := Source, d, [];
    }

    /** NewMapper: a mapper with no input yet. */
    constructor NewMapper(f: MapFunc)
      ensures kind == Mapper(f) && ds == NilStream && values == []
    {
      kind, ds, values := Mapper(f), NilStream, [];
    }

    /** `&Sink{}`: a sink that has received nothing. */
    constructor NewSink()
      ensures kind == Sink && ds == NilStream && values == []
    {
      kind, ds, values := Sink, NilStream, [];
    }

    /** String: the name each kind prints. */
    function Name(): (s: string)
      ensures kind.Source? ==> s == "naive source"
      ensures kind.Mapper? ==> s == "mapper"
      ensures kind.Sink? ==> s == "sink"
    {
      match kind
      case Source => "naive source"
      case Mapper(_) => "mapper"
      case Sink => "sink"
    }

    /**
     * Out: the node, as the handle through which it is connected; a sink has no output
     * and panics.
     */
    method Out() returns (r: Fatal<Node>)
      ensures kind.Sink? ==> r == Panicked(SINK_OUT)
      ensures !kind.Sink? ==> r == Returned(this)
    {
      if kind.Sink? {
        r := Panicked(SINK_OUT);
      } else {
        r := Returned(this);
      }
    }

    /**
     * In: a source or a mapper keeps d as its input.  A sink drains d at once and appends
     * every value, in order, to what it has received; on nil it panics.
     */
    method In(d: DataStream) returns (r: Fatal<()>)
      modifies this, Footprint(d)
      ensures !kind.Sink? ==> r == Returned(()) && ds == d && values == old(values) && RemainingOf(d) == old(RemainingOf(d))
      ensures kind.Sink? ==> ds == old(ds)
      ensures kind.Sink? && d.NilStream? ==> r == Panicked(NIL_DEREFERENCE) && values == old(values)
      ensures kind.Sink? && !d.NilStream? ==> r == Returned(()) && values == old(values) + old(RemainingOf(d)) && RemainingOf(d) == []
    {
      if !kind.Sink? {
        ds := d;
        return Returned(());
      }
      var more := MoreOf(d);
      if more.Panicked? {
        return Panicked(more.reason);
      }
      Drain(d);
      r := Returned(());
    }

    /** The loop of a sink's In: while d has more, its next value is appended to what was received. */
    method Drain(d: DataStream)
      requires !d.NilStream?
      modifies this, Footprint(d)
      ensures ds == old(ds) && values == old(values) + old(RemainingOf(d)) && RemainingOf(d) == []
    {
      ghost var total := values + RemainingOf(d);
      var more := MoreOf(d).value;
      while more
        invariant more == (RemainingOf(d) != []) && ds == old(ds)
        invariant values + RemainingOf(d) == total
        decreases |RemainingOf(d)|
      {
        ghost var got := values;
        var v := NextOf(d);
        values := values + [v.value];
        assert got + [v.value] + RemainingOf(d) == got + ([v.value] + RemainingOf(d));
        more := MoreOf(d).value;
      }
      assert values + [] == values;
    }

    /**
     * Do: a source hands on its input itself; a sink hands on nil.  A mapper drains its
     * input and hands on a fresh stream holding FlatMap of what it read, or the first
     * panic of its function; with no input it panics on the nil stream.
     */
    method Do() returns (r: Fatal<DataStream>)
      modifies Footprint(ds)
      ensures !kind.Mapper? ==> RemainingOf(ds) == old(RemainingOf(ds))
      ensures kind.Source? ==> r == Returned(ds)
      ensures kind.Sink? ==> r == Returned(NilStream)
      ensures kind.Mapper? && ds.NilStream? ==> r == Panicked(NIL_DEREFERENCE)
      ensures kind.Mapper? && !ds.NilStream? && FlatMap(kind.f, old(RemainingOf(ds))).Panicked? ==>
                r == Panicked(FlatMap(kind.f, old(RemainingOf(ds))).reason)
      ensures kind.Mapper? && !ds.NilStream? && FlatMap(kind.f, old(RemainingOf(ds))).Returned? ==>
                && r.Returned? && r.value.Slice? && fresh(r.value.s)
                && r.value.s.Remaining() == FlatMap(kind.f, old(RemainingOf(ds))).value
                && RemainingOf(ds) == []
    {
      match kind
      case Source =>
        r := Returned(ds);
      case Sink =>
        r := Returned(NilStream);
      case Mapper(f) =>
        r := MapAll(f, ds);
    }
  }

  /** Mapper.Do's loop: read every input, add each of f's values to a new builder, hand on its stream. */
  method MapAll(f: MapFunc, d: DataStream) returns (r: Fatal<DataStream>)
    modifies Footprint(d)
    ensures d.NilStream? ==> r == Panicked(NIL_DEREFERENCE)
    ensures !d.NilStream? && FlatMap(f, old(RemainingOf(d))).Panicked? ==> r == Panicked(FlatMap(f, old(RemainingOf(d))).reason)
    ensures !d.NilStream? && FlatMap(f, old(RemainingOf(d))).Returned? ==>
              && r.Returned? && r.value.Slice? && fresh(r.value.s)
              && r.value.s.Remaining() == FlatMap(f, old(RemainingOf(d))).value
              && RemainingOf(d) == []
  {
    var sb := new StreamBuilder();
    match d
    case NilStream =>
      r := Panicked(NIL_DEREFERENCE);
    case Empty =>
      var out := sb.Stream();
      r := Returned(out);
    case Slice(s) =>
      r := MapSlice(f, s, sb);
  }

  /** MapAll on a slice stream, read through More and Next until it has nothing left. */
  method MapSlice(f: MapFunc, s: SliceStream, sb: StreamBuilder) returns (r: Fatal<DataStream>)
    requires sb.ss != s && sb.ss.i == 0 && sb.ss.vs == []
    modifies s, sb.ss
    ensures FlatMap(f, old(s.Remaining())).Panicked? ==> r == Panicked(FlatMap(f, old(s.Remaining())).reason)
    ensures FlatMap(f, old(s.Remaining())).Returned? ==>
              && r == Returned(Slice(sb.ss))
              && sb.ss.Remaining() == FlatMap(f, old(s.Remaining())).value
              && s.Remaining() == []
  {
    ghost var read: seq<Value> := [];
    while s.More()
      invariant read + s.Remaining() == old(s.Remaining())
      invariant FlatMap(f, read) == Returned(sb.ss.vs) && sb.ss.i == 0
      decreases |s.vs| - s.i
    {
      var x := s.Next();
      ghost var rest := s.Remaining();
      assert read + [x.value] + rest == old(s.Remaining());
      var ys := f(x.value);
      if ys.Panicked? {
        FlatMapPanics(f, read, x.value, rest);
        return Panicked(ys.reason);
      }
      FlatMapSnoc(f, read, x.value);
      sb.AddAll(ys.value);
      read := read + [x.value];
    }
    assert read == old(s.Remaining());
    var out := sb.Stream();
    r := Returned(out);
  }

  lemma FlatMapSnoc(f: MapFunc, read: seq<Value>, x: Value)
    requires FlatMap(f, read).Returned? && f(x).Returned?
    ensures FlatMap(f, read + [x]) == Returned(FlatMap(f, read).value + f(x).value)
  {
    assert (read + [x])[..|read|] == read;
  }

  /** Once f panics on the next input, FlatMap of every longer input panics the same way. */
  lemma FlatMapPanics(f: MapFunc, read: seq<Value>, x: Value, rest: seq<Value>)
    requires FlatMap(f, read).Returned? && f(x).Panicked?
    ensures FlatMap(f, read + [x] + rest) == Panicked(f(x).reason)
  {
    assert (read + [x])[..|read|] == read;
    FlatMapStaysPanicked(f, read + [x], rest);
  }

  lemma {:induction false} FlatMapStaysPanicked(f: MapFunc, xs: seq<Value>, rest: seq<Value>)
    requires FlatMap(f, xs).Panicked?
    ensures FlatMap(f, xs + rest) == FlatMap(f, xs)
    decreases |rest|
  {
    if rest == [] {
      assert xs + rest == xs;
    } else {
      var r0 := rest[..|rest| - 1];
      assert (xs + rest)[..|xs + rest| - 1] == xs + r0;
      FlatMapStaysPanicked(f, xs, r0);
    }
  }
}
