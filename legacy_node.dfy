/**
 * node.go: the operator of the package-level revision.  It has a fixed number of input
 * slots; one run of Do reads at most one element from each attached stream and hands the
 * row of entries to the operator's callback, which collects its results.  Open runs Do and
 * records its error, which Close reports.
 */
module LegacyNode {
  import opened Outcomes
  import opened LegacyValues
  import opened LegacyStream

  /** The collector of node_test.go: it appends every value it is given. */
  class Collector {
    var vs: seq<Value>

    constructor ()
      ensures vs == []
    {
      vs := [];
    }

    method Collect(v: Value)
      modifies this
      ensures vs == old(vs) + [v]
    {
      vs := vs + [v];
    }
  }

  /**
   * The callback `do(collector, vs...)`: given the row of entries, the values it collects,
   * in order, and the error it returns.
   */
  type DoFunc = seq<Value> -> (seq<Value>, Option<Error>)

  /** The panic message of In on a full operator. */
  function TooManyStreams(nStreams: int): string {
    "cannot add input stream to operator: maximum number of streams is " + FormatInt(nStreams)
  }

  /** The entry Do takes from a stream with the given remaining elements and type. */
  function Entry(remaining: seq<Value>, t: Type): (v: Value)
    ensures remaining != [] ==> v == remaining[0]
    ensures remaining == [] ==> IsNull(v) && TypeOf(v) == t
  {
    if remaining != [] then remaining[0] else NewNull(t)
  }

  /** What is left of the remaining elements after Do took its entry. */
  function Rest(remaining: seq<Value>): (r: seq<Value>)
    ensures remaining != [] ==> [remaining[0]] + r == remaining
    ensures remaining == [] ==> r == []
  {
    if remaining != [] then remaining[1..] else []
  }

  /** Every object the attached streams may write. */
  ghost function Streams(ds: seq<DataStream>): set<object> {
    set k | 0 <= k < |ds| && ds[k].Slice? :: ds[k].s
  }

  ghost predicate AllValid(ds: seq<DataStream>)
    reads Streams(ds)
  {
    forall k :: 0 <= k < |ds| ==> ds[k].Slice? ==> ds[k].s in Streams(ds) && ds[k].s.Valid()
  }

  /** No slice stream is attached twice. */
  ghost predicate Separate(ds: seq<DataStream>) {
    forall j, k :: 0 <= j < k < |ds| && ds[j].Slice? && ds[k].Slice? ==> ds[j].s != ds[k].s
  }

  /** Whether every entry of a row is null: the operator's stop condition. */
  predicate AllNull(vs: seq<Value>) {
    forall k :: 0 <= k < |vs| ==> IsNull(vs[k])
  }

  class Operator {
    var ds: seq<DataStream>
    const nStreams: int
    const do: DoFunc
    var err: Option<Error>

    /** No more streams are attached than the operator has slots for. */
    ghost predicate Bounded()
      reads this
    {
      |ds| <= nStreams || ds == []
    }

    /** NewOperator: no stream attached and no error recorded yet. */
    constructor (nStreams: int, do: DoFunc)
      ensures this.nStreams == nStreams && this.do == do
      ensures ds == [] && err == None && Bounded()
    {
      this.nStreams, this.do := nStreams, do;
      ds, err := [], None;
    }

    /**
     * In: a stream is attached in the next slot; once every slot is taken, In panics
     * and nothing changes.
     */
    method In(d: DataStream) returns (r: Fatal<()>)
      modifies this
      ensures r.Returned? <==> old(|ds|) < nStreams
      ensures r.Returned? ==> ds == old(ds) + [d]
      ensures r.Panicked? ==> r.reason == TooManyStreams(nStreams) && ds == old(ds)
      ensures err == old(err)
      ensures old(Bounded()) ==> Bounded()
    {
      if |ds| >= nStreams {
        return Panicked(TooManyStreams(nStreams));
      }
      ds := ds + [d];
      r := Returned(());
    }

    /**
     * Do: one entry per attached stream, in attach order: its next element when it has
     * one, a null of its type otherwise; each stream is advanced at most once.  When every
     * entry is null the run stops with no error and the callback is not called; otherwise
     * the callback runs once on the row, its values go to the collector and its error is
     * returned.
     */
    method Do(c: Collector) returns (r: Option<Error>, ghost entries: seq<Value>)
      requires AllValid(ds) && Separate(ds)
      modifies c, Streams(ds)
      ensures AllValid(ds)
      ensures |entries| == |ds|
      ensures forall k :: 0 <= k < |ds| ==> entries[k] == Entry(old(RemainingOf(ds[k])), TypeOfStream(ds[k]))
      ensures forall k :: 0 <= k < |ds| ==> RemainingOf(ds[k]) == Rest(old(RemainingOf(ds[k])))
      ensures AllNull(entries) ==> r == None && c.vs == old(c.vs)
      ensures !AllNull(entries) ==> r == do(entries).1 && c.vs == old(c.vs) + do(entries).0
    {
      var vs := ReadRow(ds);
      entries := vs[..];
      var stop := IsStop(vs);
      if stop {
        return None, entries;
      }
      var (collected, e) := do(vs[..]);
      c.vs := c.vs + collected;
      r := e;
    }

    /** Open: the run of Do that a goroutine performs, made here in place; its error is recorded. */
    method Open(c: Collector) returns (ghost entries: seq<Value>)
      requires AllValid(ds) && Separate(ds)
      modifies this, c, Streams(ds)
      ensures ds == old(ds)
      ensures AllValid(ds)
      ensures |entries| == |ds|
      ensures forall k :: 0 <= k < |ds| ==> entries[k] == Entry(old(RemainingOf(ds[k])), TypeOfStream(ds[k]))
      ensures forall k :: 0 <= k < |ds| ==> RemainingOf(ds[k]) == Rest(old(RemainingOf(ds[k])))
      ensures AllNull(entries) ==> err == None && c.vs == old(c.vs)
      ensures !AllNull(entries) ==> err == do(entries).1 && c.vs == old(c.vs) + do(entries).0
    {
      var e;
      e, entries := Do(c);
      err := e;
    }

    /** Close: the error recorded by the run Open started. */
    method Close() returns (e: Option<Error>)
      ensures e == err
    {
      e := err;
    }
  }

  /**
   * Do's first loop: the row of entries, one per stream in attach order; each stream is
   * advanced by at most one.
   */
  method ReadRow(ds: seq<DataStream>) returns (vs: array<Value>)
    requires AllValid(ds) && Separate(ds)
    modifies Streams(ds)
    ensures fresh(vs) && vs.Length == |ds|
    ensures AllValid(ds)
    ensures forall k :: 0 <= k < |ds| ==> vs[k] == Entry(old(RemainingOf(ds[k])), TypeOfStream(ds[k]))
    ensures forall k :: 0 <= k < |ds| ==> RemainingOf(ds[k]) == Rest(old(RemainingOf(ds[k])))
  {
    vs := new Value[|ds|](_ => NullValue(Int));
    ghost var before := seq(|ds|, k requires 0 <= k < |ds| && ValidStream(ds[k]) reads Streams(ds) => RemainingOf(ds[k]));
    var i := 0;
    while i < |ds|
      invariant 0 <= i <= |ds|
      invariant AllValid(ds)
      invariant forall k :: 0 <= k < i ==> vs[k] == Entry(before[k], TypeOfStream(ds[k]))
      invariant forall k :: 0 <= k < i ==> RemainingOf(ds[k]) == Rest(before[k])
      invariant forall k :: i <= k < |ds| ==> RemainingOf(ds[k]) == before[k]
    {
      ReadOne(vs, i, ds);
      i := i + 1;
    }
  }

  /** One step of ReadRow: slot i gets the entry of stream i, which advances by at most one; no other stream moves. */
  method ReadOne(vs: array<Value>, i: nat, ds: seq<DataStream>)
    requires i < vs.Length && i < |ds|
    requires AllValid(ds) && Separate(ds)
    modifies vs, Footprint(ds[i])
    ensures AllValid(ds)
    ensures vs[..] == old(vs[..])[i := Entry(old(RemainingOf(ds[i])), TypeOfStream(ds[i]))]
    ensures RemainingOf(ds[i]) == Rest(old(RemainingOf(ds[i])))
    ensures forall k :: 0 <= k < |ds| && k != i ==> RemainingOf(ds[k]) == old(RemainingOf(ds[k]))
  {
    var d := ds[i];
    MoreIsRemaining(d);
    if MoreOf(d) {
      var v := NextOf(d);
      vs[i] := v.value;
    } else {
      vs[i] := NewNull(TypeOfStream(d));
    }
    assert forall k :: 0 <= k < |ds| && k != i ==> Footprint(ds[k]) !! Footprint(d);
  }

  /** Do's second loop: whether every entry is null. */
  method IsStop(vs: array<Value>) returns (stop: bool)
    ensures stop <==> AllNull(vs[..])
  {
    stop := true;
    var j := 0;
    while j < vs.Length
      invariant 0 <= j <= vs.Length
      invariant stop <==> AllNull(vs[..j])
      invariant !stop ==> !AllNull(vs[..])
    {
      if !IsNull(vs[j]) {
        stop := false;
        break;
      }
      j := j + 1;
    }
    assert j == vs.Length ==> vs[..j] == vs[..];
  }

  /** The callback of Test_Operator: the first entry's number times 1, 2, 3 and 4, and no error. */
  function Multiples(vs: seq<Value>): (seq<Value>, Option<Error>) {
    if vs != [] && vs[0].IntValue? then
      var v := vs[0].v;
      ([IntValue(Wrap64(v * 1)), IntValue(Wrap64(v * 2)), IntValue(Wrap64(v * 3)), IntValue(Wrap64(v * 4))], None)
    else ([], Some(Error("not an int")))
  }

  /** The callback of the "do error" test: it always fails. */
  function Failing(vs: seq<Value>): (seq<Value>, Option<Error>) {
    ([], Some(Error("an error")))
  }

  /** Test_Operator: one stream holding 1 gives the collector 1, 2, 3 and 4, and Close reports no error. */
  method OperatorScenario() returns (got: seq<Value>, e: Option<Error>)
    ensures got == [IntValue(1), IntValue(2), IntValue(3), IntValue(4)]
    ensures e == None
  {
    var vs := NewIntValues([1]);
    var s := new SliceStream.FromElements(vs);
    var o := new Operator(1, Multiples);
    var _ := o.In(Slice(s));
    var c := new Collector();
    assert o.ds == [Slice(s)];
    ghost var entries := o.Open(c);
    assert entries[0] == IntValue(1);
    e := o.Close();
    got := c.vs;
  }

  /** "exceed input streams": an operator with one slot panics when a second stream is attached. */
  method ExceedScenario() returns (first: Fatal<()>, second: Fatal<()>)
    ensures first.Returned?
    ensures second == Panicked(TooManyStreams(1))
  {
    var o := new Operator(1, Failing);
    first := o.In(Empty(EmptyStream(Int)));
    second := o.In(Empty(EmptyStream(Bool)));
  }

  /** "do error": the callback's error, once a value reaches it, is what Close returns. */
  method DoErrorScenario() returns (e: Option<Error>)
    ensures e == Some(Error("an error"))
  {
    var vs := NewIntValues([1]);
    var s := new SliceStream.FromElements(vs);
    var o := new Operator(1, Failing);
    var _ := o.In(Slice(s));
    var c := new Collector();
    assert o.ds == [Slice(s)];
    ghost var entries := o.Open(c);
    assert !IsNull(entries[0]);
    e := o.Close();
  }
}
