/**
 * engine.go, partitionedStream: the input of a parallel operator is split among its
 * replicas.  Each value is keyed by the operator's key selector and goes to the
 * partition numbered by its key modulo the number of partitions; when the input ends,
 * every partition receives one close sentinel.
 */
module EnginePartition {
  import opened Outcomes
  import opened Values
  import opened ValuesKey
  import opened Seqs
  import opened KeySelectors
  import opened DataStream
  import opened Arithmetic

  /**
   * The key selectors of key.go.  The round-robin one keeps a counter, so it is an
   * object; the others are pure.
   */
  datatype Selector =
    | Fixed
    | Fn(f: Value -> Key)
    | Str(proj: Value -> seq<bv8>)
    | RoundRobin(sel: RoundRobinKeySelector)

  /** The key the selector gives v when it has already served c calls. */
  function KeyOf(s: Selector, c: nat, v: Value): Key {
    match s
    case Fixed => FixedGetKey(v)
    case Fn(f) => FnGetKey(f, v)
    case Str(proj) => StringGetKey(proj, v)
    case RoundRobin(sel) => CounterAfter(sel.n, c) % KEY_BOUND
  }

  /** The objects a call of GetKey may change. */
  function State(s: Selector): set<object> {
    if s.RoundRobin? then {s.sel} else {}
  }

  /** GetKey on the selector, counting the call when it is a round-robin one. */
  method SelectKey(s: Selector, v: Value) returns (k: Key)
    requires s.RoundRobin? ==> s.sel.Valid()
    modifies State(s)
    ensures s.RoundRobin? ==> s.sel.Valid() && s.sel.calls == old(s.sel.calls) + 1 &&
                              k == KeyOf(s, old(s.sel.calls), v)
    ensures !s.RoundRobin? ==> k == KeyOf(s, 0, v)
  {
    match s
    case Fixed => k := FixedGetKey(v);
    case Fn(f) => k := FnGetKey(f, v);
    case Str(proj) => k := StringGetKey(proj, v);
    case RoundRobin(sel) => k := sel.GetKey(v);
  }

  /**
   * values.NewKeyedValue, which engine.go calls and which is declared in a revision that
   * is not part of this model: v wrapped in one new outermost keyed wrapper.
   */
  function NewKeyedValue(k: Key, v: Value): (r: Value)
    ensures r.base == v.base && |r.layers| == |v.layers| + 1
    ensures r.layers[0] == Keyed(k) && r.layers[1..] == v.layers
  {
    Value([Keyed(k)] + v.layers, v.base)
  }

  /** The keyed value carries the key, unwraps to v and keeps v's type. */
  lemma NewKeyedValueKeys(k: Key, v: Value)
    ensures GetKey(NewKeyedValue(k, v)) == (k, None)
    ensures Unwrap(NewKeyedValue(k, v)) == Ok(v)
    ensures TypeOf(NewKeyedValue(k, v)) == TypeOf(v)
  {
    var r := NewKeyedValue(k, v);
    assert r.layers[1..] == v.layers;
    assert FindLayer(r.layers, KeyKind) == Some(0);
  }

  /** The partition of a key: the key modulo the number of partitions, as uint64 values. */
  function Partition(k: Key, w: int): (t: int)
    requires w > 0
    ensures 0 <= t < w
  {
    k % w
  }

  /** The keys a selector that has already served c calls gives the values vs, in order. */
  function Keys(s: Selector, c: nat, vs: seq<Value>): (r: seq<Key>)
    ensures |r| == |vs|
  {
    if vs == [] then [] else Keys(s, c, vs[..|vs| - 1]) + [KeyOf(s, c + |vs| - 1, Last(vs))]
  }

  /** The j-th key is the one the selector gives the j-th value after c + j calls. */
  lemma {:induction false} KeysAt(s: Selector, c: nat, vs: seq<Value>, j: int)
    requires 0 <= j < |vs|
    ensures Keys(s, c, vs)[j] == KeyOf(s, c + j, vs[j])
  {
    if j < |vs| - 1 {
      var pre := vs[..|vs| - 1];
      KeysAt(s, c, pre, j);
      assert pre[j] == vs[j];
    }
  }

  /**
   * What partition i of w receives from the values vs keyed by ks: each value whose key
   * falls in partition i, keyed, in input order.
   */
  function Route(ks: seq<Key>, vs: seq<Value>, w: int, i: int): seq<Value>
    requires w > 0 && |ks| == |vs|
  {
    if vs == [] then []
    else
      var j := |vs| - 1;
      Route(ks[..j], vs[..j], w, i) + (if Partition(ks[j], w) == i then [NewKeyedValue(ks[j], vs[j])] else [])
  }

  /** How many of n calls a selector counts: only the round-robin one counts them. */
  function Calls(s: Selector, n: nat): nat {
    if s.RoundRobin? then n else 0
  }

  /**
   * partitionedStream: `width` transports, whose collected values are `parts`, and the
   * key selector.  The transports are unbounded here, since their readers run beside the
   * partitioning loop.
   */
  class PartitionedStream {
    const width: nat
    const ks: Selector
    /** What GetKey on ks may change. */
    ghost const footprint: set<object>
    var parts: seq<seq<Value>>

    /**
     * NewPartitionedStream(par, ks, ...) with transports that have received nothing:
     * without a selector, a new round-robin selector over par is used.
     */
    constructor (par: nat, ks: Option<Selector>)
      requires ks.Some? && ks.value.RoundRobin? ==> ks.value.sel.Valid()
      ensures width == par && parts == seq(par, i => [])
      ensures ks.Some? ==> this.ks == ks.value
      ensures ks.None? ==> this.ks.RoundRobin? && this.ks.sel.n == par && fresh(this.ks.sel) && this.ks.sel.calls == 0
      ensures this.ks.RoundRobin? ==> this.ks.sel.Valid()
      ensures footprint == State(this.ks)
    {
      width := par;
      var sel := if ks.Some? then ks.value else Fixed;
      if ks.None? {
        var rr := new RoundRobinKeySelector(par);
        sel := RoundRobin(rr);
      }
      this.ks := sel;
      parts := seq(par, i => []);
      footprint := State(sel);
    }

    /** Stream(i): what the i-th partition has received. */
    function Stream(i: int): (r: seq<Value>)
      requires 0 <= i < |parts|
      reads this
      ensures r == parts[i]
    {
      parts[i]
    }

    /**
     * do: each input value is keyed and collected by the transport its key selects, in
     * input order; then each transport receives one close sentinel.  With no transport,
     * the modulo of the first value divides by zero, which is fatal.
     */
    method Do(input: seq<Value>) returns (r: Fatal<()>)
      requires |parts| == width
      requires ks.RoundRobin? ==> ks.sel.Valid()
      requires footprint == State(ks)
      modifies this, footprint
      ensures |parts| == width
      ensures ks.RoundRobin? ==> ks.sel.Valid()
      ensures r.Panicked? <==> width == 0 && input != []
      ensures r.Panicked? ==> r.reason == DIVIDE_BY_ZERO && parts == old(parts)
      ensures r.Returned? ==> Served(ks) == old(Served(ks)) + Calls(ks, |input|)
      ensures r.Returned? && width > 0 ==>
                forall i :: 0 <= i < width ==> parts[i] == old(parts[i]) + Route(Keys(ks, old(Served(ks)), input), input, width, i) + [CloseValue]
    {
      if width == 0 {
        if input != [] {
          var _ := SelectKey(ks, input[0]);
          return Panicked(DIVIDE_BY_ZERO);
        }
        return Returned(());
      }
      ghost var p0 := parts;
      RouteAll(input);
      for t := 0 to width
        modifies this
        invariant |parts| == width
        invariant forall i :: 0 <= i < t ==> parts[i] == p0[i] + Route(Keys(ks, old(Served(ks)), input), input, width, i) + [CloseValue]
        invariant forall i :: t <= i < width ==> parts[i] == p0[i] + Route(Keys(ks, old(Served(ks)), input), input, width, i)
      {
        parts := parts[t := parts[t] + [CloseValue]];
      }
      r := Returned(());
    }

    /** The loop of do over the input values. */
    method RouteAll(input: seq<Value>)
      requires |parts| == width && width > 0
      requires ks.RoundRobin? ==> ks.sel.Valid()
      requires footprint == State(ks)
      modifies this, footprint
      ensures |parts| == width
      ensures ks.RoundRobin? ==> ks.sel.Valid()
      ensures Served(ks) == old(Served(ks)) + Calls(ks, |input|)
      ensures forall i :: 0 <= i < width ==> parts[i] == old(parts[i]) + Route(Keys(ks, old(Served(ks)), input), input, width, i)
    {
      ghost var c0 := Served(ks);
      ghost var p0 := parts;
      ghost var keys := Keys(ks, c0, input);
      for j := 0 to |input|
        invariant ks.RoundRobin? ==> ks.sel.Valid()
        invariant Served(ks) == c0 + Calls(ks, j)
        invariant Routed(p0, parts, keys[..j], input[..j], width)
      {
        var k := SelectKey(ks, input[j]);
        KeysAt(ks, c0, input, j);
        assert k == keys[j];
        var kv := NewKeyedValue(k, input[j]);
        var t := Partition(k, width);
        RoutedStep(p0, parts, keys, input, width, j);
        parts := parts[t := parts[t] + [kv]];
      }
      assert keys[..|input|] == keys;
      assert input[..|input|] == input;
    }
  }

  /** The calls a selector has served: only a round-robin one counts them. */
  ghost function Served(s: Selector): nat
    reads State(s)
  {
    if s.RoundRobin? then s.sel.calls else 0
  }

  /** Routing one more value, keyed k, adds it to its own partition only. */
  lemma RouteSnoc(ks: seq<Key>, vs: seq<Value>, k: Key, v: Value, w: int, i: int)
    requires w > 0 && |ks| == |vs|
    ensures Route(ks + [k], vs + [v], w, i) == Route(ks, vs, w, i) + (if Partition(k, w) == i then [NewKeyedValue(k, v)] else [])
  {
    assert (ks + [k])[..|ks|] == ks && (vs + [v])[..|vs|] == vs;
  }

  /** The partitions hold what they held at first, then what routing vs has given each. */
  ghost predicate Routed(p0: seq<seq<Value>>, parts: seq<seq<Value>>, ks: seq<Key>, vs: seq<Value>, w: int)
    requires w > 0 && |ks| == |vs|
  {
    |p0| == w && |parts| == w && forall i :: 0 <= i < w ==> parts[i] == p0[i] + Route(ks, vs, w, i)
  }

  /** Routing one more value adds it, keyed, to its own partition and to no other. */
  lemma RoutedStep(p0: seq<seq<Value>>, parts: seq<seq<Value>>, ks: seq<Key>, vs: seq<Value>, w: int, j: int)
    requires w > 0 && |ks| == |vs| && 0 <= j < |vs| && Routed(p0, parts, ks[..j], vs[..j], w)
    ensures var t := Partition(ks[j], w);
            Routed(p0, parts[t := parts[t] + [NewKeyedValue(ks[j], vs[j])]], ks[..j + 1], vs[..j + 1], w)
  {
    assert ks[..j + 1][..j] == ks[..j] && ks[..j + 1][j] == ks[j];
    assert vs[..j + 1][..j] == vs[..j] && vs[..j + 1][j] == vs[j];
  }

  /** Every value in partition i is some input value, keyed with a key that selects partition i. */
  lemma {:induction false} RouteMembers(ks: seq<Key>, vs: seq<Value>, w: int, i: int, x: Value)
    requires w > 0 && |ks| == |vs| && x in Route(ks, vs, w, i)
    ensures exists j :: 0 <= j < |vs| && Partition(ks[j], w) == i && x == NewKeyedValue(ks[j], vs[j])
  {
    var n := |vs| - 1;
    if x in Route(ks[..n], vs[..n], w, i) {
      RouteMembers(ks[..n], vs[..n], w, i, x);
      var j :| 0 <= j < n && Partition(ks[..n][j], w) == i && x == NewKeyedValue(ks[..n][j], vs[..n][j]);
      assert ks[..n][j] == ks[j] && vs[..n][j] == vs[j];
    } else {
      assert Partition(ks[n], w) == i && x == NewKeyedValue(ks[n], vs[n]);
    }
  }

  /** Every input value whose key selects partition i reaches partition i, keyed. */
  lemma {:induction false} RouteComplete(ks: seq<Key>, vs: seq<Value>, w: int, i: int, j: int)
    requires w > 0 && |ks| == |vs| && 0 <= j < |vs| && Partition(ks[j], w) == i
    ensures NewKeyedValue(ks[j], vs[j]) in Route(ks, vs, w, i)
  {
    var n := |vs| - 1;
    if j < n {
      RouteComplete(ks[..n], vs[..n], w, i, j);
      assert ks[..n][j] == ks[j] && vs[..n][j] == vs[j];
    }
  }

  /** The sizes of partitions 0..n-1 after routing vs, added up. */
  function SumSizes(ks: seq<Key>, vs: seq<Value>, w: int, n: nat): nat
    requires w > 0 && |ks| == |vs|
  {
    if n == 0 then 0 else SumSizes(ks, vs, w, n - 1) + |Route(ks, vs, w, n - 1)|
  }

  /** One more routed value adds one to the sizes exactly when its partition is among 0..n-1. */
  lemma {:induction false} SumSizesStep(ks: seq<Key>, vs: seq<Value>, w: int, n: nat)
    requires w > 0 && |ks| == |vs| && vs != []
    ensures SumSizes(ks, vs, w, n) ==
            SumSizes(ks[..|ks| - 1], vs[..|vs| - 1], w, n) + (if Partition(Last(ks), w) < n then 1 else 0)
  {
    if n > 0 {
      SumSizesStep(ks, vs, w, n - 1);
    }
  }

  lemma {:induction false} SumEmpty(w: int, n: nat)
    requires w > 0
    ensures SumSizes([], [], w, n) == 0
  {
    if n > 0 {
      SumEmpty(w, n - 1);
    }
  }

  /** Nothing is lost or duplicated: the partitions together receive exactly |vs| values. */
  lemma {:induction false} RouteConserves(ks: seq<Key>, vs: seq<Value>, w: int)
    requires w > 0 && |ks| == |vs|
    ensures SumSizes(ks, vs, w, w) == |vs|
  {
    if vs == [] {
      SumEmpty(w, w);
    } else {
      RouteConserves(ks[..|ks| - 1], vs[..|vs| - 1], w);
      SumSizesStep(ks, vs, w, w);
    }
  }

  /**
   * Without a key selector the partitioning uses a round-robin selector over the
   * number of partitions: the value read after c calls is keyed c mod w and goes to that
   * partition.
   */
  lemma RoundRobinRouting(sel: RoundRobinKeySelector, c: nat, vs: seq<Value>, w: int, j: int)
    requires sel.n == w && 0 < w <= KEY_BOUND && 0 <= j < |vs|
    ensures Keys(RoundRobin(sel), c, vs)[j] == (c + j) % w
    ensures Partition(Keys(RoundRobin(sel), c, vs)[j], w) == (c + j) % w
  {
    KeysAt(RoundRobin(sel), c, vs, j);
    CounterIsMod(w, c + j);
    var r := (c + j) % w;
    ModUnique(KEY_BOUND, r, 0, r);
    ModUnique(w, r, 0, r);
  }

  /**
   * The parity selector of the partitioning test: Go's truncating remainder of the int
   * payload by 2, converted to a uint64 key, so a negative odd payload is keyed 2^64 - 1.
   */
  function Parity(v: Value): Key {
    if v.base.Plain? then TruncRem(v.base.payload, 2) % KEY_BOUND else 0
  }

  /** Parity keys a positive odd int 1 and a negative odd int 2^64 - 1. */
  lemma ParityOfOdd()
    ensures Parity(IntValue(3)) == 1
    ensures Parity(IntValue(-3)) == KEY_BOUND - 1
  {
    assert TruncDiv(-3, 2) == -1;
  }

  /** The int values 1..n, in order. */
  function Ints(n: nat): (r: seq<Value>)
    ensures |r| == n
  {
    if n == 0 then [] else Ints(n - 1) + [IntValue(n)]
  }

  /** The keys 1, 0, 1, 0, .. of length n. */
  function ParityKeys(n: nat): (r: seq<Key>)
    ensures |r| == n
  {
    if n == 0 then [] else ParityKeys(n - 1) + [n % 2]
  }

  /** The values 2, 4, .., 2m, each keyed 0. */
  function Evens(m: nat): (r: seq<Value>)
    ensures |r| == m
  {
    if m == 0 then [] else Evens(m - 1) + [NewKeyedValue(0, IntValue(2 * m))]
  }

  /** The values 1, 3, .., 2m - 1, each keyed 1. */
  function Odds(m: nat): (r: seq<Value>)
    ensures |r| == m
  {
    if m == 0 then [] else Odds(m - 1) + [NewKeyedValue(1, IntValue(2 * m - 1))]
  }

  /** On a non-negative int the parity key is the Euclidean remainder by 2. */
  lemma ParityOfNatural(n: nat)
    ensures Parity(IntValue(n)) == n % 2
  {
    assert TruncRem(n, 2) == n % 2;
  }

  /** The parity selector keys the ints 1..n with 1, 0, 1, 0, .. */
  lemma {:induction false} ParityKeysOf(n: nat)
    ensures Keys(Fn(Parity), 0, Ints(n)) == ParityKeys(n)
  {
    if n > 0 {
      ParityKeysOf(n - 1);
      ParityOfNatural(n);
      assert Ints(n)[..n - 1] == Ints(n - 1) && Last(Ints(n)) == IntValue(n);
    }
  }

  /**
   * Partitioning the ints 1..10 in two by parity: partition 0 receives 2, 4, 6, 8, 10
   * keyed 0, and partition 1 receives 1, 3, 5, 7, 9 keyed 1, in input order.
   */
  lemma PartitionByParity()
    ensures Route(Keys(Fn(Parity), 0, Ints(10)), Ints(10), 2, 0) == Evens(5)
    ensures Route(Keys(Fn(Parity), 0, Ints(10)), Ints(10), 2, 1) == Odds(5)
  {
    ParityKeysOf(10);
    ParityEvens(5);
    ParityOdds(5);
  }

  /** A pair of ints, odd then even, adds the even one to partition 0 and the odd one to partition 1. */
  lemma PairStep(ks: seq<Key>, vs: seq<Value>, odd: Value, even: Value)
    requires |ks| == |vs|
    ensures Route(ks + [1] + [0], vs + [odd] + [even], 2, 0) == Route(ks, vs, 2, 0) + [NewKeyedValue(0, even)]
    ensures Route(ks + [1] + [0], vs + [odd] + [even], 2, 1) == Route(ks, vs, 2, 1) + [NewKeyedValue(1, odd)]
  {
    assert Partition(1, 2) == 1 && Partition(0, 2) == 0;
    RouteSnoc(ks, vs, 1, odd, 2, 0);
    RouteSnoc(ks, vs, 1, odd, 2, 1);
    RouteSnoc(ks + [1], vs + [odd], 0, even, 2, 0);
    RouteSnoc(ks + [1], vs + [odd], 0, even, 2, 1);
    assert Route(ks, vs, 2, 0) + [] == Route(ks, vs, 2, 0);
    var o := Route(ks, vs, 2, 1) + [NewKeyedValue(1, odd)];
    assert o + [] == o;
  }

  /** The first 2m ints and their keys, extended by one more pair. */
  lemma IntsPair(m: nat)
    requires m > 0
    ensures ParityKeys(2 * m) == ParityKeys(2 * (m - 1)) + [1] + [0]
    ensures Ints(2 * m) == Ints(2 * (m - 1)) + [IntValue(2 * m - 1)] + [IntValue(2 * m)]
  {
    ModUnique(2, 2 * m - 1, m - 1, 1);
    ModUnique(2, 2 * m, m, 0);
  }

  /** After the first 2m ints, the even partition holds 2, 4, .., 2m. */
  lemma {:induction false} ParityEvens(m: nat)
    ensures Route(ParityKeys(2 * m), Ints(2 * m), 2, 0) == Evens(m)
  {
    if m > 0 {
      ParityEvens(m - 1);
      IntsPair(m);
      PairStep(ParityKeys(2 * (m - 1)), Ints(2 * (m - 1)), IntValue(2 * m - 1), IntValue(2 * m));
    }
  }

  /** After the first 2m ints, the odd partition holds 1, 3, .., 2m - 1. */
  lemma {:induction false} ParityOdds(m: nat)
    ensures Route(ParityKeys(2 * m), Ints(2 * m), 2, 1) == Odds(m)
  {
    if m > 0 {
      ParityOdds(m - 1);
      IntsPair(m);
      PairStep(ParityKeys(2 * (m - 1)), Ints(2 * (m - 1)), IntValue(2 * m - 1), IntValue(2 * m));
    }
  }
}
