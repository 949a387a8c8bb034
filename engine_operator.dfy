/**
 * engine.go, Operator: one replica of a node.  It reads its input stream value by value,
 * keeps one clone of its node per key (made the first time the key is seen), lets that
 * clone handle the value, and stops at the first error.  A node with no input is a
 * source: its own Do runs once, on a null value.
 */
module EngineOperator {
  import opened Outcomes
  import opened Values
  import opened ValuesKey
  import opened EnginePartition

  /** What one call of a node's Do does: the node's new state, the values it collects, its error. */
  datatype Step<S> = Step(state: S, emitted: seq<Value>, err: Option<Error>)

  /**
   * A node of the graph, whose code belongs to the program that builds the graph: its
   * state, its Do as a function of that state and the value, its Clone as a function of
   * the state, and its parallelism.
   */
  datatype Node<!S> = Node(state: S, do: (S, Value) -> Step<S>, clone: S -> S, parallelism: int)

  /** values.NewNull(values.Int64): the useless value a source's Do receives. */
  const NullInt64: Value := Value([], Null(Int64))

  /** The key of the outermost keyed wrapper among layers, 0 when there is none. */
  function KeyIn(layers: seq<Layer>): Key {
    if layers == [] then 0
    else if layers[0].Keyed? then layers[0].key
    else KeyIn(layers[1..])
  }

  /** values.GetKey as engine.go uses it, dropping the error: the key, 0 when there is none. */
  function KeyOfValue(v: Value): Key {
    KeyIn(v.layers)
  }

  /** KeyOfValue is the key GetKey returns, with or without its error. */
  lemma KeyOfValueIsGetKey(v: Value)
    ensures KeyOfValue(v) == GetKey(v).0
  {
    KeyInFinds(v.layers);
  }

  lemma {:induction false} KeyInFinds(layers: seq<Layer>)
    ensures KeyIn(layers) == match FindLayer(layers, KeyKind)
                             case Some(i) => layers[i].key
                             case None => 0
  {
    if layers != [] && !layers[0].Keyed? {
      KeyInFinds(layers[1..]);
    }
  }

  /** The node getNode gives key k: the clone stored for k, or a new clone of the template. */
  function StateFor<S>(n: Node<S>, tmpl: S, nodes: map<Key, S>, k: Key): S {
    if k in nodes then nodes[k] else n.clone(tmpl)
  }

  /**
   * How do's loop ends: the clones stored per key, the values collected, the number of
   * input values handled, and the outcome (do's error, or a panic).
   */
  datatype Run<S> = Run(nodes: map<Key, S>, out: seq<Value>, read: nat, result: Fatal<Option<Error>>)

  /** A run that first handled `read` values collecting `out`, then went on as r. */
  function Prepend<S>(out: seq<Value>, read: nat, r: Run<S>): Run<S> {
    Run(r.nodes, out + r.out, read + r.read, r.result)
  }

  /** The keys of the values vs. */
  function KeysRead(vs: seq<Value>): set<Key> {
    set j | 0 <= j < |vs| :: KeyOfValue(vs[j])
  }

  /**
   * do over the values of its input stream vs.  The stream ends at its first close
   * sentinel, for which infiniteStream.Next returns nil.  Each value goes to the clone of
   * its key; the loop stops at the first error, and collecting on a nil collector panics.
   */
  function Process<S>(n: Node<S>, tmpl: S, hasOut: bool, nodes: map<Key, S>, vs: seq<Value>): (r: Run<S>)
    ensures r.read <= |vs|
    decreases |vs|
  {
    if vs == [] || IsClose(vs[0]) then Run(nodes, [], 0, Returned(None))
    else
      var k := KeyOfValue(vs[0]);
      var s := n.do(StateFor(n, tmpl, nodes, k), vs[0]);
      var next := nodes[k := s.state];
      if !hasOut && s.emitted != [] then Run(next, [], 1, Panicked(NIL_DEREFERENCE))
      else if s.err.Some? then Run(next, s.emitted, 1, Returned(s.err))
      else Prepend(s.emitted, 1, Process(n, tmpl, hasOut, next, vs[1..]))
  }

  /**
   * do reads no further than the first close sentinel; it ends normally only at the end
   * of its input or at that sentinel, and otherwise on the value it read last.
   */
  lemma {:induction false} ProcessStops<S>(n: Node<S>, tmpl: S, hasOut: bool, nodes: map<Key, S>, vs: seq<Value>)
    ensures var r := Process(n, tmpl, hasOut, nodes, vs);
            (forall j :: 0 <= j < r.read ==> !IsClose(vs[j])) &&
            (r.result == Returned(None) ==> r.read == |vs| || IsClose(vs[r.read])) &&
            (r.result != Returned(None) ==> r.read > 0)
    decreases |vs|
  {
    if vs != [] && !IsClose(vs[0]) {
      var k := KeyOfValue(vs[0]);
      var s := n.do(StateFor(n, tmpl, nodes, k), vs[0]);
      if !(!hasOut && s.emitted != []) && s.err.None? {
        ProcessStops(n, tmpl, hasOut, nodes[k := s.state], vs[1..]);
      }
    }
  }

  /** A sink collects nothing: do panics at its first attempt instead. */
  lemma {:induction false} SinkCollectsNothing<S>(n: Node<S>, tmpl: S, nodes: map<Key, S>, vs: seq<Value>)
    ensures Process(n, tmpl, false, nodes, vs).out == []
    decreases |vs|
  {
    if vs != [] && !IsClose(vs[0]) {
      var k := KeyOfValue(vs[0]);
      var s := n.do(StateFor(n, tmpl, nodes, k), vs[0]);
      if s.emitted == [] && s.err.None? {
        SinkCollectsNothing(n, tmpl, nodes[k := s.state], vs[1..]);
      }
    }
  }

  /**
   * getNode clones on first sight: after do, a clone is stored for exactly the keys stored
   * before and the keys of the values read.
   */
  lemma {:induction false} ProcessKeys<S>(n: Node<S>, tmpl: S, hasOut: bool, nodes: map<Key, S>, vs: seq<Value>)
    ensures var r := Process(n, tmpl, hasOut, nodes, vs);
            r.nodes.Keys == nodes.Keys + KeysRead(vs[..r.read])
    decreases |vs|
  {
    if vs == [] || IsClose(vs[0]) {
      assert vs[..0] == [];
    } else {
      var k := KeyOfValue(vs[0]);
      var s := n.do(StateFor(n, tmpl, nodes, k), vs[0]);
      var next := nodes[k := s.state];
      if (!hasOut && s.emitted != []) || s.err.Some? {
        assert KeysRead(vs[..1]) == {k} by {
          assert vs[..1][0] == vs[0];
        }
      } else {
        var r := Process(n, tmpl, hasOut, next, vs[1..]);
        ProcessKeys(n, tmpl, hasOut, next, vs[1..]);
        KeysReadStep(vs, r.read);
      }
    }
  }

  lemma KeysReadStep(vs: seq<Value>, m: nat)
    requires 0 < |vs| && m <= |vs| - 1
    ensures KeysRead(vs[..1 + m]) == {KeyOfValue(vs[0])} + KeysRead(vs[1..][..m])
  {
    var a, b := vs[..1 + m], vs[1..][..m];
    assert forall j :: 0 <= j < m ==> a[j + 1] == b[j];
    assert a[0] == vs[0];
    forall x | x in KeysRead(a)
      ensures x in {KeyOfValue(vs[0])} + KeysRead(b)
    {
      var j :| 0 <= j < |a| && x == KeyOfValue(a[j]);
      if j > 0 {
        assert x == KeyOfValue(b[j - 1]);
      }
    }
  }

  /** do's loop unfolded at the value vs[i]. */
  lemma ProcessAt<S>(n: Node<S>, tmpl: S, hasOut: bool, nodes: map<Key, S>, vs: seq<Value>, i: int)
    requires 0 <= i < |vs| && !IsClose(vs[i])
    ensures var k := KeyOfValue(vs[i]);
            var s := n.do(StateFor(n, tmpl, nodes, k), vs[i]);
            Process(n, tmpl, hasOut, nodes, vs[i..]) ==
              if !hasOut && s.emitted != [] then Run(nodes[k := s.state], [], 1, Panicked(NIL_DEREFERENCE))
              else if s.err.Some? then Run(nodes[k := s.state], s.emitted, 1, Returned(s.err))
              else Prepend(s.emitted, 1, Process(n, tmpl, hasOut, nodes[k := s.state], vs[i + 1..]))
  {
    assert vs[i..][0] == vs[i] && vs[i..][1..] == vs[i + 1..];
  }

  /** Handling values in two stretches is handling them in one. */
  lemma PrependTwice<S>(a: seq<Value>, i: nat, b: seq<Value>, j: nat, r: Run<S>)
    ensures Prepend(a, i, Prepend(b, j, r)) == Prepend(a + b, i + j, r)
  {
    assert a + (b + r.out) == (a + b) + r.out;
  }

  /** The values of vs whose key is k, in order. */
  function ForKey(vs: seq<Value>, k: Key): (r: seq<Value>)
    ensures |r| <= |vs|
  {
    if vs == [] then []
    else (if KeyOfValue(vs[0]) == k then [vs[0]] else []) + ForKey(vs[1..], k)
  }

  /** The state of one node after its Do has handled ws in order, from st. */
  function Fold<S>(n: Node<S>, st: S, ws: seq<Value>): S {
    if ws == [] then st else Fold(n, n.do(st, ws[0]).state, ws[1..])
  }

  /**
   * Keys do not interfere: after do, the clone stored for key k is the clone getNode gave
   * k at its first sight (or the one already stored), after it handled exactly the values
   * keyed k, in input order.
   */
  lemma {:induction false} PerKeyIsolation<S>(n: Node<S>, tmpl: S, hasOut: bool, nodes: map<Key, S>, vs: seq<Value>, k: Key)
    requires k in Process(n, tmpl, hasOut, nodes, vs).nodes
    ensures var r := Process(n, tmpl, hasOut, nodes, vs);
            r.nodes[k] == Fold(n, StateFor(n, tmpl, nodes, k), ForKey(vs[..r.read], k))
    decreases |vs|
  {
    if vs == [] || IsClose(vs[0]) {
      assert vs[..0] == [];
    } else {
      var k0 := KeyOfValue(vs[0]);
      var s := n.do(StateFor(n, tmpl, nodes, k0), vs[0]);
      var next := nodes[k0 := s.state];
      var r := Process(n, tmpl, hasOut, nodes, vs);
      var st := StateFor(n, tmpl, nodes, k);
      if (!hasOut && s.emitted != []) || s.err.Some? {
        assert r.nodes == next && r.read == 1;
        SliceCons(vs, 0);
        ForKeyCons(vs[0], [], k);
        FoldCons(n, st, vs[0], []);
        if k == k0 {
          assert r.nodes[k] == Fold(n, st, [vs[0]]);
        } else {
          assert r.nodes[k] == Fold(n, st, []);
        }
      } else {
        var r1 := Process(n, tmpl, hasOut, next, vs[1..]);
        assert r.nodes == r1.nodes && r.read == 1 + r1.read;
        PerKeyIsolation(n, tmpl, hasOut, next, vs[1..], k);
        var ws := vs[1..][..r1.read];
        SliceCons(vs, r1.read);
        ForKeyCons(vs[0], ws, k);
        FoldCons(n, st, vs[0], ForKey(ws, k));
        assert vs[..r.read] == [vs[0]] + ws;
        if k == k0 {
          assert StateFor(n, tmpl, next, k) == n.do(st, vs[0]).state;
          assert ForKey(vs[..r.read], k) == [vs[0]] + ForKey(ws, k);
        } else {
          assert StateFor(n, tmpl, next, k) == st;
          assert ForKey(vs[..r.read], k) == ForKey(ws, k);
        }
      }
    }
  }

  /** do's loop after it handled vs[..i], collecting acc and leaving the clones nodes. */
  ghost predicate Progress<S>(n: Node<S>, tmpl: S, hasOut: bool, nodes0: map<Key, S>, vs: seq<Value>,
                              acc: seq<Value>, i: int, nodes: map<Key, S>)
  {
    0 <= i <= |vs| &&
    Process(n, tmpl, hasOut, nodes0, vs) == Prepend(acc, i, Process(n, tmpl, hasOut, nodes, vs[i..]))
  }

  lemma ProgressStart<S>(n: Node<S>, tmpl: S, hasOut: bool, nodes: map<Key, S>, vs: seq<Value>)
    ensures Progress(n, tmpl, hasOut, nodes, vs, [], 0, nodes)
  {
    assert vs[0..] == vs;
  }

  lemma ProgressStep<S>(n: Node<S>, tmpl: S, hasOut: bool, nodes0: map<Key, S>, vs: seq<Value>,
                        acc: seq<Value>, i: int, nodes: map<Key, S>)
    requires Progress(n, tmpl, hasOut, nodes0, vs, acc, i, nodes) && i < |vs| && !IsClose(vs[i])
    requires var s := n.do(StateFor(n, tmpl, nodes, KeyOfValue(vs[i])), vs[i]);
             (hasOut || s.emitted == []) && s.err.None?
    ensures var k := KeyOfValue(vs[i]);
            var s := n.do(StateFor(n, tmpl, nodes, k), vs[i]);
            Progress(n, tmpl, hasOut, nodes0, vs, acc + s.emitted, i + 1, nodes[k := s.state])
  {
    var k := KeyOfValue(vs[i]);
    var s := n.do(StateFor(n, tmpl, nodes, k), vs[i]);
    ProcessAt(n, tmpl, hasOut, nodes, vs, i);
    PrependTwice(acc, i, s.emitted, 1, Process(n, tmpl, hasOut, nodes[k := s.state], vs[i + 1..]));
  }

  lemma ProgressHalt<S>(n: Node<S>, tmpl: S, hasOut: bool, nodes0: map<Key, S>, vs: seq<Value>,
                        acc: seq<Value>, i: int, nodes: map<Key, S>)
    requires Progress(n, tmpl, hasOut, nodes0, vs, acc, i, nodes) && i < |vs| && !IsClose(vs[i])
    ensures var k := KeyOfValue(vs[i]);
            var s := n.do(StateFor(n, tmpl, nodes, k), vs[i]);
            var p := Process(n, tmpl, hasOut, nodes0, vs);
            (!hasOut && s.emitted != [] ==> p == Run(nodes[k := s.state], acc, i + 1, Panicked(NIL_DEREFERENCE))) &&
            (!(!hasOut && s.emitted != []) && s.err.Some? ==>
               p == Run(nodes[k := s.state], acc + s.emitted, i + 1, Returned(s.err)))
  {
    ProcessAt(n, tmpl, hasOut, nodes, vs, i);
  }

  lemma ProgressEnd<S>(n: Node<S>, tmpl: S, hasOut: bool, nodes0: map<Key, S>, vs: seq<Value>,
                       acc: seq<Value>, i: int, nodes: map<Key, S>)
    requires Progress(n, tmpl, hasOut, nodes0, vs, acc, i, nodes) && (i == |vs| || IsClose(vs[i]))
    ensures Process(n, tmpl, hasOut, nodes0, vs) == Run(nodes, acc, i, Returned(None))
  {
    assert i < |vs| ==> vs[i..][0] == vs[i];
  }

  lemma ConcatAssoc<T>(a: seq<T>, b: seq<T>, c: seq<T>)
    ensures (a + b) + c == a + (b + c)
  {
  }

  lemma SliceCons<T>(xs: seq<T>, m: nat)
    requires 0 < |xs| && m < |xs|
    ensures xs[..1 + m] == [xs[0]] + xs[1..][..m]
  {
  }

  lemma ForKeyCons(v: Value, ws: seq<Value>, k: Key)
    ensures ForKey([v] + ws, k) == (if KeyOfValue(v) == k then [v] else []) + ForKey(ws, k)
  {
    assert ([v] + ws)[0] == v && ([v] + ws)[1..] == ws;
  }

  lemma FoldCons<S>(n: Node<S>, st: S, v: Value, ws: seq<Value>)
    ensures Fold(n, st, [v] + ws) == Fold(n, n.do(st, v).state, ws)
  {
    assert ([v] + ws)[0] == v && ([v] + ws)[1..] == ws;
  }

  /** The state Open leaves an operator in: its outcome, template, clones, collected values and error. */
  datatype Opened<S> = Opened(result: Fatal<()>, tmpl: S, ns: map<Key, S>, out: seq<Value>, err: Option<Error>)

  /** The runtime error of make with a negative length. */
  const MAKESLICE: string := "makeslice: len out of range"

  /**
   * Operator: the template node, the clones per key, the input (nil for a source), and
   * whether a collector is attached (nil for a sink), with what was collected on it.
   */
  class Operator<S> {
    const bn: Node<S>
    /** The template's own state; only a source's Do changes it. */
    var tmpl: S
    var ns: map<Key, S>
    var input: Option<seq<Value>>
    var hasOut: bool
    var out: seq<Value>
    var err: Option<Error>

    /** NewOperator(n): no clone yet, no input, no collector. */
    constructor (n: Node<S>)
      ensures bn == n && tmpl == n.state && ns == map[] && input == None
      ensures !hasOut && out == [] && err == None
    {
      bn := n;
      tmpl := n.state;
      ns := map[];
      input := None;
      hasOut := false;
      out := [];
      err := None;
    }

    /** The state NewOperator(n) gives. */
    ghost predicate Initial(n: Node<S>)
      reads this
    {
      bn == n && tmpl == n.state && ns == map[] && input == None && !hasOut && out == [] && err == None
    }

    /** The current state, with the outcome of the last call. */
    ghost function Snapshot(result: Fatal<()>): Opened<S>
      reads this
    {
      Opened(result, tmpl, ns, out, err)
    }

    /**
     * What Open does from the current state: do runs (the template once, or the loop
     * Process specifies); unless it panicked, its error is recorded and a close sentinel
     * follows on the collector, if there is one.
     */
    ghost function AfterOpen(): Opened<S>
      reads this
    {
      if input.None? then
        var s := bn.do(tmpl, NullInt64);
        if !hasOut && s.emitted != [] then Opened(Panicked(NIL_DEREFERENCE), s.state, ns, out, err)
        else Opened(Returned(()), s.state, ns, out + (if hasOut then s.emitted + [CloseValue] else []), s.err)
      else
        var p := Process(bn, tmpl, hasOut, ns, input.value);
        if p.result.Panicked? then Opened(Panicked(p.result.reason), tmpl, p.nodes, out + p.out, err)
        else Opened(Returned(()), tmpl, p.nodes, out + p.out + (if hasOut then [CloseValue] else []), p.result.value)
    }

    /** In: the input stream, given by the values it yields. */
    method In(vs: seq<Value>)
      modifies this
      ensures input == Some(vs) && hasOut == old(hasOut)
      ensures Snapshot(Returned(())) == old(Snapshot(Returned(())))
    {
      input := Some(vs);
    }

    /** Out: a collector is attached. */
    method Out()
      modifies this
      ensures hasOut && input == old(input)
      ensures Snapshot(Returned(())) == old(Snapshot(Returned(())))
    {
      hasOut := true;
    }

    /** getNode: the clone stored for k, made from the template the first time k is seen. */
    method GetNode(k: Key) returns (st: S)
      modifies this
      ensures st == StateFor(bn, tmpl, old(ns), k) && ns == old(ns)[k := st]
      ensures tmpl == old(tmpl) && input == old(input) && hasOut == old(hasOut) && out == old(out) && err == old(err)
    {
      if k !in ns {
        ns := ns[k := bn.clone(tmpl)];
      }
      st := ns[k];
    }

    /**
     * do: a source runs its template's Do once on a null value; any other operator runs
     * the loop Process specifies over its input.
     */
    method Do() returns (r: Fatal<Option<Error>>)
      modifies this
      ensures input == old(input) && hasOut == old(hasOut) && err == old(err)
      ensures input.None? ==>
                var s := bn.do(old(tmpl), NullInt64);
                tmpl == s.state && ns == old(ns) &&
                r == (if !hasOut && s.emitted != [] then Panicked(NIL_DEREFERENCE) else Returned(s.err)) &&
                out == old(out) + (if hasOut then s.emitted else [])
      ensures input.Some? ==>
                var p := Process(bn, old(tmpl), hasOut, old(ns), input.value);
                tmpl == old(tmpl) && ns == p.nodes && out == old(out) + p.out && r == p.result
    {
      if input.None? {
        r := DoSource();
      } else {
        r := DoInput(input.value);
      }
    }

    /** do on a source: the template itself handles one null value. */
    method DoSource() returns (r: Fatal<Option<Error>>)
      modifies this
      ensures input == old(input) && hasOut == old(hasOut) && err == old(err) && ns == old(ns)
      ensures var s := bn.do(old(tmpl), NullInt64);
              tmpl == s.state &&
              r == (if !hasOut && s.emitted != [] then Panicked(NIL_DEREFERENCE) else Returned(s.err)) &&
              out == old(out) + (if hasOut then s.emitted else [])
    {
      var s := bn.do(tmpl, NullInt64);
      tmpl := s.state;
      if !hasOut && s.emitted != [] {
        return Panicked(NIL_DEREFERENCE);
      }
      if hasOut {
        out := out + s.emitted;
      }
      r := Returned(s.err);
    }

    /** do's loop over the values the input stream vs yields. */
    method DoInput(vs: seq<Value>) returns (r: Fatal<Option<Error>>)
      modifies this
      ensures input == old(input) && hasOut == old(hasOut) && err == old(err) && tmpl == old(tmpl)
      ensures var p := Process(bn, tmpl, hasOut, old(ns), vs);
              ns == p.nodes && out == old(out) + p.out && r == p.result
    {
      ghost var ns0, out0, t, h := ns, out, tmpl, hasOut;
      ghost var acc: seq<Value> := [];
      var i := 0;
      ProgressStart(bn, t, h, ns0, vs);
      while i < |vs| && !IsClose(vs[i])
        invariant 0 <= i <= |vs| && out == out0 + acc && tmpl == t && hasOut == h
        invariant input == old(input) && err == old(err)
        invariant Progress(bn, t, h, ns0, vs, acc, i, ns)
        decreases |vs| - i
      {
        ghost var before := ns;
        var k := KeyOfValue(vs[i]);
        var st := GetNode(k);
        var s := bn.do(st, vs[i]);
        ns := ns[k := s.state];
        assert ns == before[k := s.state] && st == StateFor(bn, t, before, k);
        if !hasOut && s.emitted != [] {
          ProgressHalt(bn, t, h, ns0, vs, acc, i, before);
          return Panicked(NIL_DEREFERENCE);
        }
        ConcatAssoc(out0, acc, s.emitted);
        out := out + s.emitted;
        if s.err.Some? {
          ProgressHalt(bn, t, h, ns0, vs, acc, i, before);
          return Returned(s.err);
        }
        ProgressStep(bn, t, h, ns0, vs, acc, i, before);
        acc := acc + s.emitted;
        i := i + 1;
      }
      ProgressEnd(bn, t, h, ns0, vs, acc, i, ns);
      r := Returned(None);
    }

    /** Open, run to its end: the state AfterOpen describes. */
    method Open() returns (r: Fatal<()>)
      modifies this
      ensures input == old(input) && hasOut == old(hasOut)
      ensures Snapshot(r) == old(AfterOpen())
    {
      var d := Do();
      if d.Panicked? {
        return Panicked(d.reason);
      }
      err := d.value;
      if hasOut {
        out := out + [CloseValue];
      }
      r := Returned(());
    }

    /** Close: the error do recorded. */
    method Close() returns (e: Option<Error>)
      ensures e == err
    {
      e := err;
    }
  }

  /**
   * ParallelOperator: the replicas of one node, the key selector of their input (nil for
   * the default round-robin one), and, once Out ran, the count of the shared collector
   * the replicas send to and the number of collectors it broadcasts to.
   */
  class ParallelOperator<S> {
    const ops: seq<Operator<S>>
    const inKs: Option<Selector>
    ghost const Repr: set<Operator<S>>
    var shared: Option<(int, nat)>

    ghost predicate Valid()
      reads this
    {
      Repr == (set i | 0 <= i < |ops| :: ops[i]) &&
      forall i, j :: 0 <= i < j < |ops| ==> ops[i] != ops[j]
    }

    constructor (ops: seq<Operator<S>>, inKs: Option<Selector>)
      requires forall i, j :: 0 <= i < j < |ops| ==> ops[i] != ops[j]
      ensures this.ops == ops && this.inKs == inKs && shared == None && Valid()
    {
      this.ops := ops;
      this.inKs := inKs;
      Repr := set i | 0 <= i < |ops| :: ops[i];
      shared := None;
    }

    /**
     * NewParallelOperator(par, f) with f returning NewOperator(n), as Execute passes it:
     * par new replicas of n; a negative par makes make panic.
     */
    static method New(par: int, n: Node<S>, inKs: Option<Selector>) returns (r: Fatal<ParallelOperator<S>>)
      ensures r.Panicked? <==> par < 0
      ensures r.Panicked? ==> r.reason == MAKESLICE
      ensures r.Returned? ==>
                fresh(r.value) && fresh(r.value.Repr) && r.value.Valid() &&
                |r.value.ops| == par && r.value.inKs == inKs && r.value.shared == None &&
                forall i :: 0 <= i < par ==> r.value.ops[i].Initial(n)
    {
      if par < 0 {
        return Panicked(MAKESLICE);
      }
      var ops: seq<Operator<S>> := [];
      for i := 0 to par
        invariant |ops| == i
        invariant forall j :: 0 <= j < i ==> fresh(ops[j]) && ops[j].Initial(n)
        invariant forall j, l :: 0 <= j < l < i ==> ops[j] != ops[l]
      {
        var o := new Operator(n);
        ops := ops + [o];
      }
      var p := new ParallelOperator(ops, inKs);
      r := Returned(p);
    }

    /**
     * In: a partitioned stream over the replicas, keyed by ks (the given selector, or a
     * new round-robin one over the replica count) whose counter starts at c0; each
     * replica reads its own partition.  With no replica, a value to route is fatal.
     */
    method In(vs: seq<Value>) returns (r: Fatal<()>, ghost ks: Selector, ghost c0: nat)
      requires Valid()
      requires inKs.Some? && inKs.value.RoundRobin? ==> inKs.value.sel.Valid()
      modifies Repr, if inKs.Some? then State(inKs.value) else {}
      ensures r.Panicked? <==> |ops| == 0 && vs != []
      ensures inKs.Some? ==> ks == inKs.value && c0 == old(Served(inKs.value))
      ensures inKs.None? ==> ks.RoundRobin? && ks.sel.n == |ops| && c0 == 0
      ensures r.Returned? ==>
                forall i :: 0 <= i < |ops| ==>
                  ops[i].input == Some(Route(Keys(ks, c0, vs), vs, |ops|, i) + [CloseValue]) &&
                  ops[i].hasOut == old(ops[i].hasOut) &&
                  ops[i].Snapshot(Returned(())) == old(ops[i].Snapshot(Returned(())))
    {
      var ps := new PartitionedStream(|ops|, inKs);
      ks := ps.ks;
      c0 := Served(ks);
      ghost var empty := ps.parts;
      r := ps.Do(vs);
      if r.Panicked? {
        return;
      }
      ghost var parts := ps.parts;
      forall i | 0 <= i < |ops|
        ensures parts[i] == Route(Keys(ks, c0, vs), vs, |ops|, i) + [CloseValue]
      {
        assert empty[i] == [];
        assert parts[i] == empty[i] + Route(Keys(ks, c0, vs), vs, |ops|, i) + [CloseValue];
      }
      for i := 0 to |ops|
        invariant ps.parts == parts && |parts| == |ops|
        invariant forall j :: 0 <= j < i ==>
                    ops[j].input == Some(parts[j]) && ops[j].hasOut == old(ops[j].hasOut) &&
                    ops[j].Snapshot(Returned(())) == old(ops[j].Snapshot(Returned(())))
        invariant forall j :: i <= j < |ops| ==> unchanged(ops[j])
      {
        ops[i].In(ps.Stream(i));
      }
    }

    /**
     * Out: one shared collector, counting the replicas, over a broadcast to cs
     * collectors; every replica sends to it.
     */
    method Out(cs: nat)
      requires Valid()
      modifies this, Repr
      ensures shared == Some((|ops|, cs))
      ensures forall i :: 0 <= i < |ops| ==>
                ops[i].hasOut && ops[i].input == old(ops[i].input) &&
                ops[i].Snapshot(Returned(())) == old(ops[i].Snapshot(Returned(())))
    {
      shared := Some((|ops|, cs));
      for i := 0 to |ops|
        invariant shared == Some((|ops|, cs))
        invariant forall j :: 0 <= j < i ==>
                    ops[j].hasOut && ops[j].input == old(ops[j].input) &&
                    ops[j].Snapshot(Returned(())) == old(ops[j].Snapshot(Returned(())))
        invariant forall j :: i <= j < |ops| ==> unchanged(ops[j])
      {
        ops[i].Out();
      }
    }

    /**
     * Open: every replica is opened, one after the other here; a replica's panic ends
     * the program.
     */
    method Open() returns (r: Fatal<()>)
      requires Valid()
      modifies Repr
      ensures r.Returned? ==> forall i :: 0 <= i < |ops| ==> ops[i].Snapshot(Returned(())) == old(ops[i].AfterOpen())
      ensures r.Panicked? ==> exists i :: 0 <= i < |ops| && old(ops[i].AfterOpen()).result == r
    {
      for i := 0 to |ops|
        invariant forall j :: 0 <= j < i ==> ops[j].Snapshot(Returned(())) == old(ops[j].AfterOpen())
        invariant forall j :: i <= j < |ops| ==> unchanged(ops[j])
      {
        var o := ops[i].Open();
        if o.Panicked? {
          return o;
        }
      }
      r := Returned(());
    }

    /** The errors the replicas recorded, in replica order. */
    ghost function Errs(n: nat): (r: seq<Option<Error>>)
      requires Valid() && n <= |ops|
      reads this, Repr
      ensures |r| == n
    {
      if n == 0 then [] else Errs(n - 1) + [ops[n - 1].err]
    }

    /** Close: the last error a replica recorded, or nil when none did. */
    method Close() returns (e: Option<Error>)
      requires Valid()
      ensures e == LastError(Errs(|ops|))
    {
      e := None;
      for i := 0 to |ops|
        invariant e == LastError(Errs(i))
      {
        var oerr := ops[i].Close();
        assert Errs(i + 1)[..i] == Errs(i) && Errs(i + 1)[i] == oerr;
        if oerr.Some? {
          e := oerr;
        }
      }
    }
  }
}
