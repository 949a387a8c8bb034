/**
 * engine.go, the collectors between replicas: sharedCollector lets the many replicas of
 * an operator share one downstream collector, and broadcastCollector copies every value
 * to each of the operator's output streams.
 */
module EngineCollectors {
  import opened Values
  import opened Seqs

  /** How many close sentinels xs holds. */
  function CountClose(xs: seq<Value>): nat {
    if xs == [] then 0 else CountClose(xs[..|xs| - 1]) + (if IsClose(Last(xs)) then 1 else 0)
  }

  /** The values of xs that are not close sentinels, in order. */
  function Data(xs: seq<Value>): seq<Value> {
    if xs == [] then [] else Data(xs[..|xs| - 1]) + (if IsClose(Last(xs)) then [] else [Last(xs)])
  }

  /**
   * What a sharedCollector created with count p passes on after receiving xs: the
   * counter drops by one on each close sentinel, and the sentinel that leaves it above
   * zero is swallowed; every other value is passed on.
   */
  function SharedOut(p: int, xs: seq<Value>): seq<Value> {
    if xs == [] then []
    else SharedOut(p, xs[..|xs| - 1]) + (if IsClose(Last(xs)) && p - CountClose(xs) > 0 then [] else [Last(xs)])
  }

  /** The collector downstream of a sharedCollector sees every value except close sentinels swallowed. */
  lemma {:induction false} SharedKeepsData(p: int, xs: seq<Value>)
    ensures Data(SharedOut(p, xs)) == Data(xs)
  {
    if xs != [] {
      var init := xs[..|xs| - 1];
      SharedKeepsData(p, init);
      var tail := if IsClose(Last(xs)) && p - CountClose(xs) > 0 then [] else [Last(xs)];
      DataAppend(SharedOut(p, init), tail);
    }
  }

  /**
   * Of the close sentinels received, the first p - 1 are swallowed and every later one is
   * passed on (with p <= 1 every one is).
   */
  lemma {:induction false} SharedCloses(p: int, xs: seq<Value>)
    ensures CountClose(SharedOut(p, xs)) == if CountClose(xs) < p then 0 else CountClose(xs) - (if p > 1 then p - 1 else 0)
  {
    if xs != [] {
      var init := xs[..|xs| - 1];
      SharedCloses(p, init);
      var tail := if IsClose(Last(xs)) && p - CountClose(xs) > 0 then [] else [Last(xs)];
      CountAppend(SharedOut(p, init), tail);
    }
  }

  lemma {:induction false} CountAppend(xs: seq<Value>, ys: seq<Value>)
    ensures CountClose(xs + ys) == CountClose(xs) + CountClose(ys)
    decreases |ys|
  {
    if ys == [] {
      assert xs + ys == xs;
    } else {
      assert (xs + ys)[..|xs + ys| - 1] == xs + ys[..|ys| - 1];
      CountAppend(xs, ys[..|ys| - 1]);
    }
  }

  lemma {:induction false} DataAppend(xs: seq<Value>, ys: seq<Value>)
    ensures Data(xs + ys) == Data(xs) + Data(ys)
    decreases |ys|
  {
    if ys == [] {
      assert xs + ys == xs;
    } else {
      assert (xs + ys)[..|xs + ys| - 1] == xs + ys[..|ys| - 1];
      DataAppend(xs, ys[..|ys| - 1]);
    }
  }

  /** Receiving xs and then ys: ys meets the counter that xs has left. */
  lemma {:induction false} SharedAppend(p: int, xs: seq<Value>, ys: seq<Value>)
    ensures SharedOut(p, xs + ys) == SharedOut(p, xs) + SharedOut(p - CountClose(xs), ys)
    decreases |ys|
  {
    if ys == [] {
      assert xs + ys == xs;
    } else {
      var zs := xs + ys;
      assert zs[..|zs| - 1] == xs + ys[..|ys| - 1] && Last(zs) == Last(ys);
      SharedAppend(p, xs, ys[..|ys| - 1]);
      CountAppend(xs, ys);
    }
  }

  /** The values a replica sends: its data, then the close sentinel that Open sends after it. */
  function Finished(parts: seq<seq<Value>>): seq<Value> {
    if parts == [] then [] else Finished(parts[..|parts| - 1]) + Last(parts) + [CloseValue]
  }

  /** A sequence without close sentinels counts none, keeps all of them as data, and passes a counter unchanged. */
  lemma {:induction false} NoCloses(p: int, xs: seq<Value>)
    requires forall j :: 0 <= j < |xs| ==> !IsClose(xs[j])
    ensures CountClose(xs) == 0 && SharedOut(p, xs) == xs
  {
    if xs != [] {
      var init := xs[..|xs| - 1];
      NoCloses(p, init);
      assert !IsClose(Last(xs)) by {
        assert Last(xs) == xs[|xs| - 1];
      }
      assert SharedOut(p, xs) == SharedOut(p, init) + [Last(xs)];
      assert init + [Last(xs)] == xs;
    }
  }

  /** One run, data then a close sentinel, meeting counter q: the sentinel passes exactly when q <= 1. */
  lemma OneRun(q: int, xs: seq<Value>)
    requires forall j :: 0 <= j < |xs| ==> !IsClose(xs[j])
    ensures CountClose(xs + [CloseValue]) == 1
    ensures SharedOut(q, xs + [CloseValue]) == xs + (if q > 1 then [] else [CloseValue])
  {
    NoCloses(q, xs);
    var ys := xs + [CloseValue];
    assert ys[..|ys| - 1] == xs && Last(ys) == CloseValue;
  }

  /** While fewer than p runs have ended, the counter p has let their data through and no close sentinel. */
  lemma {:induction false} Runs(p: int, parts: seq<seq<Value>>)
    requires |parts| < p
    requires forall i, j :: 0 <= i < |parts| && 0 <= j < |parts[i]| ==> !IsClose(parts[i][j])
    ensures CountClose(Finished(parts)) == |parts|
    ensures SharedOut(p, Finished(parts)) == Flatten(parts)
  {
    if parts != [] {
      var init, last := parts[..|parts| - 1], Last(parts);
      LastRun(parts);
      Runs(p, init);
      var fi := Finished(init);
      SharedAppend(p, fi, last + [CloseValue]);
      CountAppend(fi, last + [CloseValue]);
      OneRun(p - |init|, last);
      assert Flatten(init) + (last + []) == Flatten(parts);
    }
  }

  /** The last run of parts, split off. */
  lemma LastRun(parts: seq<seq<Value>>)
    requires parts != []
    requires forall i, j :: 0 <= i < |parts| && 0 <= j < |parts[i]| ==> !IsClose(parts[i][j])
    ensures Finished(parts) == Finished(parts[..|parts| - 1]) + (Last(parts) + [CloseValue])
    ensures Flatten(parts) == Flatten(parts[..|parts| - 1]) + Last(parts)
    ensures forall j :: 0 <= j < |Last(parts)| ==> !IsClose(Last(parts)[j])
  {
    assert Last(parts) == parts[|parts| - 1];
  }

  /**
   * The shared collector of p replicas whose runs each send their data and one close
   * sentinel: downstream sees the data of every run in the order the runs sent it, and
   * then one close sentinel, after the last run has ended.
   */
  lemma SharedReplicas(parts: seq<seq<Value>>)
    requires parts != []
    requires forall i, j :: 0 <= i < |parts| && 0 <= j < |parts[i]| ==> !IsClose(parts[i][j])
    ensures SharedOut(|parts|, Finished(parts)) == Flatten(parts) + [CloseValue]
  {
    var init, last := parts[..|parts| - 1], Last(parts);
    LastRun(parts);
    Runs(|parts|, init);
    SharedAppend(|parts|, Finished(init), last + [CloseValue]);
    OneRun(1, last);
  }

  /**
   * sharedCollector: passes values on to its downstream collector, whose received values
   * are `forwarded`, and swallows close sentinels while its counter stays above zero.
   */
  class SharedCollector {
    /** The count it was created with: the number of replicas that share it. */
    const initial: int
    var par: int
    var forwarded: seq<Value>
    ghost var received: seq<Value>

    ghost predicate Valid()
      reads this
    {
      par == initial - CountClose(received) && forwarded == SharedOut(initial, received)
    }

    /** newSharedCollector(c, par), with c a collector that has received nothing yet. */
    constructor (par: int)
      ensures Valid() && initial == par && received == [] && forwarded == []
    {
      initial := par;
      this.par := par;
      forwarded := [];
      received := [];
    }

    /** Collect: a close sentinel lowers the counter and passes only once it is no longer above zero. */
    method Collect(v: Value)
      requires Valid()
      modifies this
      ensures Valid() && received == old(received) + [v]
      ensures par == old(par) - (if IsClose(v) then 1 else 0)
      ensures forwarded == old(forwarded) + (if IsClose(v) && par > 0 then [] else [v])
    {
      received := received + [v];
      assert received[..|received| - 1] == old(received);
      if IsClose(v) {
        par := par - 1;
        if par > 0 {
          return;
        }
      }
      forwarded := forwarded + [v];
    }
  }

  /** One value delivered to the collector with the given index. */
  datatype Delivery = Delivery(target: int, v: Value)

  /** The deliveries of a broadcast over `width` collectors once xs has been collected. */
  function Deliveries(width: nat, xs: seq<Value>): seq<Delivery> {
    if xs == [] then [] else Deliveries(width, xs[..|xs| - 1]) + seq(width, i => Delivery(i, Last(xs)))
  }

  /**
   * broadcastCollector: every value it collects is collected by each of its collectors,
   * in slice order.  `delivered[i]` is what the i-th has received from it, and `trace`
   * the order of the deliveries.
   */
  class BroadcastCollector {
    const width: nat
    var delivered: seq<seq<Value>>
    var trace: seq<Delivery>
    ghost var received: seq<Value>

    ghost predicate Valid()
      reads this
    {
      |delivered| == width && (forall i :: 0 <= i < width ==> delivered[i] == received) &&
      trace == Deliveries(width, received)
    }

    /** newBroadCastCollector(cs), with `width` collectors that have received nothing yet. */
    constructor (width: nat)
      ensures Valid() && this.width == width && received == []
    {
      this.width := width;
      delivered := seq(width, i => []);
      trace := [];
      received := [];
    }

    /** Collect: v goes to the first collector, then the second, and so on. */
    method Collect(v: Value)
      requires Valid()
      modifies this
      ensures Valid() && received == old(received) + [v]
      ensures trace == old(trace) + seq(width, i => Delivery(i, v))
    {
      for i := 0 to width
        invariant |delivered| == width
        invariant forall j :: 0 <= j < i ==> delivered[j] == old(received) + [v]
        invariant forall j :: i <= j < width ==> delivered[j] == old(received)
        invariant trace == old(trace) + seq(i, j => Delivery(j, v))
        invariant received == old(received)
      {
        delivered := delivered[i := delivered[i] + [v]];
        trace := trace + [Delivery(i, v)];
      }
      received := received + [v];
      assert received[..|received| - 1] == old(received);
    }
  }
}
