/**
 * engine.go, dataStreams: the input of an operator with several upstream producers.  It
 * merges one buffered stream per producer, tags each value with the index of the stream
 * it came from, and counts the close sentinels: once every stream has sent one, the
 * merged stream ends.
 */
module EngineMerge {
  import opened Outcomes
  import opened Values
  import opened ValuesSource
  import opened Seqs
  import opened DataStream
  import opened EngineCollectors

  /**
   * values.NewValueWithSource, which engine.go calls and which is declared in a revision
   * that is not part of this model: v wrapped in one new outermost source wrapper.
   */
  function WithSource(i: Source, v: Value): (r: Value)
    ensures GetSource(r) == (i, None)
    ensures Unwrap(r) == Ok(v)
    ensures TypeOf(r) == TypeOf(v)
  {
    var r := Value([Sourced(i)] + v.layers, v.base);
    assert r.layers[1..] == v.layers;
    assert FindLayer(r.layers, SourceKind) == Some(0);
    r
  }

  /** What one call of Next gives: a value, the end of the merged stream, or a wait for producers. */
  datatype Recv = Data(v: Value) | End | Blocked

  /** The close sentinels received from every input together. */
  function TotalClose(gs: seq<seq<Value>>): nat {
    if gs == [] then 0 else TotalClose(gs[..|gs| - 1]) + CountClose(Last(gs))
  }

  /** Receiving v from input i adds one to the total exactly when v is a close sentinel. */
  lemma {:induction false} TotalCloseStep(gs: seq<seq<Value>>, i: int, v: Value)
    requires 0 <= i < |gs|
    ensures TotalClose(gs[i := gs[i] + [v]]) == TotalClose(gs) + (if IsClose(v) then 1 else 0)
    decreases |gs|
  {
    var hs := gs[i := gs[i] + [v]];
    assert (gs[i] + [v])[..|gs[i]|] == gs[i];
    if i == |gs| - 1 {
      assert hs[..|hs| - 1] == gs[..|gs| - 1];
    } else {
      assert hs[..|hs| - 1] == gs[..|gs| - 1][i := gs[i] + [v]];
      TotalCloseStep(gs[..|gs| - 1], i, v);
    }
  }

  /** Every value of xs is a close sentinel. */
  ghost predicate OnlyCloses(xs: seq<Value>) {
    forall j :: 0 <= j < |xs| ==> IsClose(xs[j])
  }

  /** Each input's received values have only grown, and every value added is a close sentinel. */
  ghost predicate ClosesOnly(before: seq<seq<Value>>, after: seq<seq<Value>>) {
    |before| == |after| &&
    forall j :: 0 <= j < |after| ==> before[j] <= after[j] && OnlyCloses(after[j][|before[j]|..])
  }

  /**
   * The values received between before and after: close sentinels, and last a value from
   * input i that is not one, which w carries tagged with i.
   */
  ghost predicate Tagged(before: seq<seq<Value>>, after: seq<seq<Value>>, i: int, w: Value) {
    |before| == |after| && 0 <= i < |after| && |before[i]| < |after[i]| &&
    (forall j :: 0 <= j < |after| ==> before[j] <= after[j]) &&
    !IsClose(Last(after[i])) && w == WithSource(i, Last(after[i])) &&
    OnlyCloses(after[i][|before[i]|..|after[i]| - 1]) &&
    forall j :: 0 <= j < |after| && j != i ==> OnlyCloses(after[j][|before[j]|..])
  }

  /**
   * dataStreams over k infinite streams.  bufs[j] is what the j-th channel holds and
   * closed[j] its closed flag; n is the count of inputs still open.  sent[j] is every
   * value ever collected into the j-th stream, and got[j] every value received from it.
   */
  class DataStreams {
    const k: nat
    var bufs: seq<seq<Value>>
    var closed: seq<bool>
    var n: int
    ghost var sent: seq<seq<Value>>
    ghost var got: seq<seq<Value>>

    ghost predicate Valid()
      reads this
    {
      Queues() && n == k - TotalClose(got) && n >= 0
    }

    /** Each channel holds what was sent to it and not yet received, in order. */
    ghost predicate Queues()
      reads this
    {
      |bufs| == k && |closed| == k && |sent| == k && |got| == k &&
      forall j :: 0 <= j < k ==> sent[j] == got[j] + bufs[j]
    }

    /** newDataStreams(ss...): one input per stream, with what it holds; n starts at len(ss). */
    constructor (streams: seq<seq<Value>>, closedFlags: seq<bool>)
      requires |closedFlags| == |streams|
      ensures Valid() && k == |streams| && bufs == streams && closed == closedFlags && n == k
      ensures sent == streams && got == seq(k, j => [])
    {
      k := |streams|;
      bufs := streams;
      closed := closedFlags;
      n := |streams|;
      sent := streams;
      got := seq(|streams|, j => []);
      new;
      assert forall j :: 0 <= j < |streams| ==> got[j] + bufs[j] == bufs[j];
      ZeroCloses(got);
    }

    /** A producer's Collect on the j-th stream: a full channel blocks (a precondition here). */
    method Collect(j: int, v: Value) returns (r: Fatal<()>)
      requires Valid() && 0 <= j < k && |bufs[j]| < DEFAULT_BUFFER_SIZE
      modifies this
      ensures Valid() && got == old(got) && n == old(n) && closed == old(closed)
      ensures old(closed)[j] ==> r.Panicked? && bufs == old(bufs) && sent == old(sent)
      ensures !old(closed)[j] ==> r == Returned(()) && bufs == old(bufs)[j := old(bufs)[j] + [v]] &&
                                  sent == old(sent)[j := old(sent)[j] + [v]]
    {
      if closed[j] {
        return Panicked("send on closed channel");
      }
      bufs := bufs[j := bufs[j] + [v]];
      sent := sent[j := sent[j] + [v]];
      r := Returned(());
    }

    /**
     * Next, as engine.go writes it.  While inputs are open it receives from any ready
     * channel: a close sentinel counts one input as ended and the search goes on; any other
     * value is returned tagged with the index of its input.  Receiving from a closed,
     * drained channel is fatal.  When no input is open it closes every input stream and
     * returns nil, and closing a stream that is already closed is fatal, so a second call
     * after the end panics.  A receive with no channel ready waits for a producer: here
     * the call returns Blocked, keeping the sentinels it has counted.
     */
    method NextAsWritten() returns (r: Fatal<Recv>)
      requires Valid()
      modifies this
      ensures Valid() && sent == old(sent)
      ensures old(n) == 0 ==> got == old(got) && (r.Panicked? <==> exists j :: 0 <= j < k && old(closed)[j])
      ensures old(n) == 0 && r.Returned? ==> r.value == End
      ensures old(n) == 0 && r.Panicked? ==> r.reason == "close of closed channel"
      ensures r == Returned(End) ==> n == 0 && ClosesOnly(old(got), got) && forall j :: 0 <= j < k ==> closed[j]
      ensures r == Returned(Blocked) ==> n > 0 && ClosesOnly(old(got), got) && forall j :: 0 <= j < k ==> bufs[j] == [] && !closed[j]
      ensures r.Returned? && r.value.Data? ==> exists i :: Tagged(old(got), got, i, r.value.v)
    {
      r := Receive();
      if r == Returned(End) {
        r := CloseInputs();
      }
    }

    /**
     * Next, closing at the end only the input streams that are still open, so that every
     * call after the end returns nil as the end of the merged stream.
     */
    method Next() returns (r: Fatal<Recv>)
      requires Valid()
      modifies this
      ensures Valid() && sent == old(sent)
      ensures old(n) == 0 ==> got == old(got) && r == Returned(End)
      ensures r == Returned(End) ==> n == 0 && ClosesOnly(old(got), got) && forall j :: 0 <= j < k ==> closed[j]
      ensures r == Returned(Blocked) ==> n > 0 && ClosesOnly(old(got), got) && forall j :: 0 <= j < k ==> bufs[j] == [] && !closed[j]
      ensures r.Returned? && r.value.Data? ==> exists i :: Tagged(old(got), got, i, r.value.v)
    {
      r := Receive();
      if r == Returned(End) {
        CloseOpenInputs();
      }
    }

    /**
     * The receiving part of Next: the selection repeats while inputs are open and close
     * sentinels arrive; Returned(End) means that no input is left open, and the input
     * streams are not closed yet.
     */
    method Receive() returns (r: Fatal<Recv>)
      requires Valid()
      modifies this
      ensures Valid() && sent == old(sent) && closed == old(closed)
      ensures old(n) == 0 ==> got == old(got) && r == Returned(End)
      ensures r.Panicked? ==> r.reason == "unexpected close"
      ensures r == Returned(End) ==> n == 0 && ClosesOnly(old(got), got)
      ensures r == Returned(Blocked) ==> n > 0 && ClosesOnly(old(got), got) && forall j :: 0 <= j < k ==> bufs[j] == [] && !closed[j]
      ensures r.Returned? && r.value.Data? ==> exists i :: Tagged(old(got), got, i, r.value.v)
    {
      ClosesOnlyRefl(got);
      while n > 0
        invariant Valid() && sent == old(sent) && closed == old(closed)
        invariant ClosesOnly(old(got), got)
        invariant old(n) == 0 ==> got == old(got)
        decreases n
      {
        if forall j :: 0 <= j < k ==> bufs[j] == [] && !closed[j] {
          return Returned(Blocked);
        }
        ghost var mid := got;
        var i, ok, v := Select();
        if !ok {
          return Panicked("unexpected close");
        }
        TotalCloseStep(mid, i, v);
        if IsClose(v) {
          n := n - 1;
          CloseReceived(old(got), mid, i, v);
        } else {
          DataReceived(old(got), mid, i, v);
          return Returned(Data(WithSource(i, v)));
        }
      }
      r := Returned(End);
    }

    /**
     * reflect.Select over the inputs: some channel that holds a value or is closed; ok
     * tells whether a value was received, else the channel is closed and drained.
     */
    method Select() returns (i: int, ok: bool, v: Value)
      requires Valid() && exists j :: 0 <= j < k && (bufs[j] != [] || closed[j])
      modifies this
      ensures Queues() && 0 <= i < k && (old(bufs)[i] != [] || old(closed)[i])
      ensures sent == old(sent) && closed == old(closed) && n == old(n)
      ensures ok <==> old(bufs)[i] != []
      ensures ok ==> v == old(bufs)[i][0] && bufs == old(bufs)[i := old(bufs)[i][1..]] && got == old(got)[i := old(got)[i] + [v]]
      ensures !ok ==> bufs == old(bufs) && got == old(got)
    {
      i :| 0 <= i < k && (bufs[i] != [] || closed[i]);
      if bufs[i] == [] {
        return i, false, CloseValue;
      }
      v := bufs[i][0];
      got := got[i := got[i] + [v]];
      bufs := bufs[i := bufs[i][1..]];
      ok := true;
      assert old(got)[i] + old(bufs)[i] == got[i] + bufs[i];
    }

    /** The loop over every input that closes each stream, fatal on one already closed. */
    method CloseInputs() returns (r: Fatal<Recv>)
      requires Valid()
      modifies this
      ensures Valid() && sent == old(sent) && got == old(got) && bufs == old(bufs) && n == old(n)
      ensures r.Panicked? <==> exists j :: 0 <= j < k && old(closed)[j]
      ensures r.Returned? ==> r.value == End && forall j :: 0 <= j < k ==> closed[j]
      ensures r.Panicked? ==> r.reason == "close of closed channel"
    {
      for j := 0 to k
        invariant Valid() && sent == old(sent) && got == old(got) && bufs == old(bufs) && n == old(n)
        invariant |closed| == k && forall m :: 0 <= m < j ==> closed[m] && !old(closed)[m]
        invariant forall m :: j <= m < k ==> closed[m] == old(closed)[m]
      {
        var was := closed[j];
        closed := closed[j := true];
        if was {
          return Panicked("close of closed channel");
        }
      }
      r := Returned(End);
    }

    /** Closing the input streams that are still open. */
    method CloseOpenInputs()
      requires Valid()
      modifies this
      ensures Valid() && sent == old(sent) && got == old(got) && bufs == old(bufs) && n == old(n)
      ensures forall j :: 0 <= j < k ==> closed[j]
    {
      for j := 0 to k
        invariant Valid() && sent == old(sent) && got == old(got) && bufs == old(bufs) && n == old(n)
        invariant |closed| == k && forall m :: 0 <= m < j ==> closed[m]
      {
        if !closed[j] {
          closed := closed[j := true];
        }
      }
    }
  }

  /**
   * The call after the end, as written: with at least one input, a call of Next that
   * returned nil is followed by one that panics, since it closes the inputs again.
   */
  method EndTwiceAsWritten(d: DataStreams) returns (first: Fatal<Recv>, second: Fatal<Recv>)
    requires d.Valid() && d.k > 0
    modifies d
    ensures first == Returned(End) ==> second.Panicked? && second.reason == "close of closed channel"
  {
    first := d.NextAsWritten();
    second := first;
    if first == Returned(End) {
      assert d.closed[0];
      second := d.NextAsWritten();
    }
  }

  /** The call after the end, corrected: nil again, and again on every later call. */
  method EndTwice(d: DataStreams) returns (first: Fatal<Recv>, second: Fatal<Recv>)
    requires d.Valid()
    modifies d
    ensures first == Returned(End) ==> second == Returned(End) && d.n == 0
  {
    first := d.Next();
    second := first;
    if first == Returned(End) {
      second := d.Next();
    }
  }

  /**
   * What Next returns is never a close sentinel: it is the value received from input i,
   * wrapped so that GetSource reads i and Unwrap gives the value back.
   */
  lemma TaggedData(before: seq<seq<Value>>, after: seq<seq<Value>>, i: int, w: Value)
    requires Tagged(before, after, i, w)
    ensures !IsClose(w) && GetSource(w) == (i, None) && Unwrap(w) == Ok(Last(after[i]))
    ensures Last(after[i]) in after[i][|before[i]|..]
  {
    assert after[i][|before[i]|..][|after[i]| - |before[i]| - 1] == Last(after[i]);
  }

  /** The tag a merged value carries: its outermost source. */
  function SourceOf(w: Value): int {
    GetSource(w).0
  }

  /** A close sentinel received from input i keeps everything received since `before` close sentinels. */
  lemma CloseReceived(before: seq<seq<Value>>, mid: seq<seq<Value>>, i: int, v: Value)
    requires ClosesOnly(before, mid) && 0 <= i < |mid| && IsClose(v)
    ensures ClosesOnly(before, mid[i := mid[i] + [v]])
  {
    var after := mid[i := mid[i] + [v]];
    assert after[i][|before[i]|..] == mid[i][|before[i]|..] + [v];
  }

  /** A value received from input i after close sentinels only: the call returns it, tagged with i. */
  lemma DataReceived(before: seq<seq<Value>>, mid: seq<seq<Value>>, i: int, v: Value)
    requires ClosesOnly(before, mid) && 0 <= i < |mid| && !IsClose(v)
    ensures Tagged(before, mid[i := mid[i] + [v]], i, WithSource(i, v))
  {
    var after := mid[i := mid[i] + [v]];
    assert after[i][..|after[i]| - 1] == mid[i];
    assert after[i][|before[i]|..|after[i]| - 1] == mid[i][|before[i]|..];
  }

  lemma ClosesOnlyRefl(gs: seq<seq<Value>>)
    ensures ClosesOnly(gs, gs)
  {
    forall j | 0 <= j < |gs| ensures gs[j][|gs[j]|..] == [] {
    }
  }

  lemma {:induction false} ZeroCloses(gs: seq<seq<Value>>)
    requires forall j :: 0 <= j < |gs| ==> gs[j] == []
    ensures TotalClose(gs) == 0
  {
    if gs != [] {
      ZeroCloses(gs[..|gs| - 1]);
    }
  }
}
