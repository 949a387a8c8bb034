/**
 * naive/execute.go: run a graph of naive nodes layer by layer.  The first layer is the
 * graph's roots; each node of a layer runs Do once, and the one stream it returns is given
 * to In of the target of each of its arcs, in adjacency order, with no copy, so the first
 * target that drains it leaves nothing for the next.  The targets form the next layer.
 *
 * The graph is the producer-indexed graph of graph/graph.gen.go over naive nodes, ordered
 * by their String.  A graph with a cycle runs forever in Go: here the number of layers is
 * bounded by `fuel`.
 */
module NaiveExecute {
  import opened Outcomes
  import opened GraphGen
  import opened LayeredWalk
  import opened LegacyValues
  import opened NaiveStream
  import opened NaiveNode

  /** A node's String, by which Roots orders the first layer. */
  function Name(n: Node): string {
    n.Name()
  }

  /** The nodes that run Do, layer after layer, within `fuel` layers. */
  function Layers<N(==)>(adjacency: map<N, seq<Arc<N>>>, layer: seq<N>, fuel: nat): seq<N>
    decreases fuel
  {
    if layer == [] || fuel == 0 then []
    else layer + Layers(adjacency, Targets(Visit(adjacency, layer)), fuel - 1)
  }

  /**
   * When the run ends on an empty layer, the nodes that ran are the first layer followed
   * by the target of every arc a stream went along: each node runs once per arc into it.
   */
  lemma {:induction false} LayersFollowArcs<N>(adjacency: map<N, seq<Arc<N>>>, layer: seq<N>, fuel: nat)
    requires WalkFrom(adjacency, layer, fuel).1
    ensures Layers(adjacency, layer, fuel) == layer + Targets(WalkFrom(adjacency, layer, fuel).0)
    decreases fuel
  {
    if layer != [] {
      var arcs := Visit(adjacency, layer);
      var next := Targets(arcs);
      LayersFollowArcs(adjacency, next, fuel - 1);
      TargetsAppend(arcs, WalkFrom(adjacency, next, fuel - 1).0);
    }
  }

  /** The layers run so far are `ran`, followed by the layers still ahead. */
  ghost predicate LayersProgress<N>(adjacency: map<N, seq<Arc<N>>>, roots: seq<N>, fuel: nat,
                                        ran: seq<N>, layer: seq<N>, steps: nat)
  {
    steps <= fuel && Layers(adjacency, roots, fuel) == ran + Layers(adjacency, layer, fuel - steps)
  }

  lemma LayersStep<N>(adjacency: map<N, seq<Arc<N>>>, roots: seq<N>, fuel: nat,
                          ran: seq<N>, layer: seq<N>, steps: nat)
    requires LayersProgress(adjacency, roots, fuel, ran, layer, steps)
    requires layer != [] && steps < fuel
    ensures LayersProgress(adjacency, roots, fuel, ran + layer, Targets(Visit(adjacency, layer)), steps + 1)
  {
    var later := Layers(adjacency, Targets(Visit(adjacency, layer)), fuel - steps - 1);
    assert Layers(adjacency, layer, fuel - steps) == layer + later;
    assert ran + (layer + later) == (ran + layer) + later;
  }

  /** Every root and every arc target of g is one of `nodes`, and every arc has a target. */
  ghost predicate Covers(g: Graph<Node>, nodes: set<Node>)
    reads g
  {
    && (forall n :: n in g.roots ==> n in nodes)
    && (forall n :: n in g.adjacency ==> forall a :: a in g.adjacency[n] ==> a.to.Some? && a.to.value in nodes)
  }

  /** Every slice stream a node holds is one of `known`. */
  ghost predicate Owned(nodes: set<Node>, known: set<SliceStream>)
    reads nodes
  {
    forall n :: n in nodes && n.ds.Slice? ==> n.ds.s in known
  }

  /**
   * One node's turn: Do runs, then its stream goes to In of each arc's target in
   * adjacency order.  The arcs the stream went along are the node's adjacency list, and
   * their targets are what the node adds to the next layer.
   */
  method RunNode(g: Graph<Node>, root: Node, ghost nodes: set<Node>, ghost known: set<SliceStream>)
    returns (r: Fatal<()>, ghost calls: seq<Arc<Node>>, next: seq<Node>, ghost known': set<SliceStream>)
    requires Covers(g, nodes) && root in nodes && Owned(nodes, known)
    modifies nodes, known
    ensures Owned(nodes, known') && known <= known'
    ensures forall x :: x in known' ==> x in known || fresh(x)
    ensures r.Returned? ==> calls == g.Adjacents(root) && next == Targets(calls)
  {
    var s := root.Do();
    if s.Panicked? {
      return Panicked(s.reason), [], [], known;
    }
    var d := s.value;
    known' := if d.Slice? then known + {d.s} else known;
    var adj := g.Adjacents(root);
    forall a | a in adj
      ensures a.to.Some? && a.to.value in nodes
    {
      assert a in g.adjacency[root];
    }
    r, calls, next := Deliver(d, adj, nodes, known');
  }

  /** The delivery loop of one node: its stream goes to In of each arc's target, in order. */
  method Deliver(d: DataStream, adj: seq<Arc<Node>>, ghost nodes: set<Node>, ghost known: set<SliceStream>)
    returns (r: Fatal<()>, ghost calls: seq<Arc<Node>>, next: seq<Node>)
    requires forall a :: a in adj ==> a.to.Some? && a.to.value in nodes
    requires Owned(nodes, known) && (d.Slice? ==> d.s in known)
    modifies nodes, known
    ensures Owned(nodes, known)
    ensures r.Returned? ==> calls == adj && next == Targets(calls)
  {
    calls, next := [], [];
    var j := 0;
    while j < |adj|
      invariant 0 <= j <= |adj|
      invariant Owned(nodes, known)
      invariant calls == adj[..j] && next == Targets(calls)
    {
      var a := adj[j];
      assert a in adj;
      var n := a.to.value;
      var done := n.In(d);
      if done.Panicked? {
        return Panicked(done.reason), calls, next;
      }
      TargetsAppend(calls, [a]);
      TargetOne(a);
      assert adj[..j + 1] == adj[..j] + [a];
      calls, next := calls + [a], next + [n];
      j := j + 1;
    }
    assert adj[..j] == adj;
    r := Returned(());
  }

  /** One pass of the layer loop: every node of the layer takes its turn, in order. */
  method RunLayer(g: Graph<Node>, layer: seq<Node>, ghost nodes: set<Node>, ghost known: set<SliceStream>)
    returns (r: Fatal<()>, ghost calls: seq<Arc<Node>>, next: seq<Node>, ghost known': set<SliceStream>)
    requires Covers(g, nodes) && (forall n :: n in layer ==> n in nodes) && Owned(nodes, known)
    modifies nodes, known
    ensures Owned(nodes, known') && known <= known'
    ensures forall x :: x in known' ==> x in known || fresh(x)
    ensures r.Returned? ==> calls == Visit(g.adjacency, layer) && next == Targets(calls)
  {
    calls, next, known' := [], [], known;
    var i := 0;
    while i < |layer|
      invariant 0 <= i <= |layer|
      invariant Owned(nodes, known') && known <= known'
      invariant forall x :: x in known' ==> x in known || fresh(x)
      invariant calls == Visit(g.adjacency, layer[..i]) && next == Targets(calls)
    {
      assert layer[i] in layer;
      var done, c, n, k := RunNode(g, layer[i], nodes, known');
      if done.Panicked? {
        return done, calls, next, k;
      }
      assert layer[..i + 1][..i] == layer[..i];
      assert Visit(g.adjacency, layer[..i + 1]) == Visit(g.adjacency, layer[..i]) + g.Adjacents(layer[i]);
      TargetsAppend(calls, c);
      calls, next, known' := calls + c, next + n, k;
      i := i + 1;
    }
    assert layer[..i] == layer;
    r := Returned(());
  }

  /**
   * Execute: the nodes run in the layers of the walk from the roots, ordered by String;
   * the streams go along the arcs walk.go visits, in the same order.  Execute returns nil
   * unless a node panics.  `finished` is false only when `fuel` layers went by and the
   * last of them was not empty.
   */
  method Execute(g: Graph<Node>, ghost nodes: set<Node>, ghost streams: set<SliceStream>, fuel: nat)
    returns (r: Fatal<()>, finished: bool, ghost delivered: seq<Arc<Node>>, ghost ran: seq<Node>, ghost roots: seq<Node>)
    requires Covers(g, nodes) && Owned(nodes, streams)
    modifies nodes, streams
    ensures multiset(roots) == multiset(Marked(g.roots, g.roots.Keys)) && Sorted(Name, roots)
    ensures r.Returned? ==> (delivered, finished) == WalkFrom(g.adjacency, roots, fuel)
    ensures r.Returned? ==> ran == Layers(g.adjacency, roots, fuel)
  {
    var layer := g.Roots(Name);
    roots := layer;
    forall n | n in layer
      ensures n in nodes
    {
      assert n in multiset(layer);
    }
    delivered, ran := [], [];
    ghost var known := streams;
    var steps := 0;
    assert delivered + WalkFrom(g.adjacency, layer, fuel).0 == WalkFrom(g.adjacency, layer, fuel).0;
    assert ran + Layers(g.adjacency, layer, fuel) == Layers(g.adjacency, layer, fuel);
    while layer != [] && steps < fuel
      invariant Progress(g.adjacency, roots, fuel, delivered, layer, steps)
      invariant LayersProgress(g.adjacency, roots, fuel, ran, layer, steps)
      invariant forall n :: n in layer ==> n in nodes
      invariant Owned(nodes, known)
      invariant forall x :: x in known ==> x in streams || fresh(x)
      decreases fuel - steps
    {
      ProgressStep(g.adjacency, roots, fuel, delivered, layer, steps);
      LayersStep(g.adjacency, roots, fuel, ran, layer, steps);
      var done, calls, next, k := RunLayer(g, layer, nodes, known);
      if done.Panicked? {
        return done, false, delivered, ran, roots;
      }
      forall n | n in next
        ensures n in nodes
      {
        TargetsCovered(g, nodes, layer, n);
      }
      delivered, ran, known := delivered + calls, ran + layer, k;
      layer := next;
      steps := steps + 1;
    }
    finished := layer == [];
    assert WalkFrom(g.adjacency, layer, fuel - steps) == ([], finished);
    assert Layers(g.adjacency, layer, fuel - steps) == [];
    assert delivered + [] == delivered;
    assert ran + [] == ran;
    r := Returned(());
  }

  /** The next layer is made of arc targets, which the graph covers. */
  lemma TargetsCovered(g: Graph<Node>, nodes: set<Node>, layer: seq<Node>, n: Node)
    requires Covers(g, nodes)
    requires n in Targets(Visit(g.adjacency, layer))
    ensures n in nodes
  {
    var i, a := TargetOf(Visit(g.adjacency, layer), n);
    var k, j := ListedAt(g.adjacency, layer, i);
    assert g.adjacency[layer[k]][j] in g.adjacency[layer[k]];
  }

  /** A target of some arcs is the target of one of them. */
  lemma {:induction false} TargetOf<N>(arcs: seq<Arc<N>>, n: N) returns (i: nat, a: Arc<N>)
    requires n in Targets(arcs)
    ensures i < |arcs| && a == arcs[i] && a.to == Some(n)
    decreases |arcs|
  {
    var init := arcs[..|arcs| - 1];
    var last := arcs[|arcs| - 1];
    if n in Targets(init) {
      i, a := TargetOf(init, n);
    } else {
      i, a := |arcs| - 1, last;
    }
  }

  /** Every arc Visit lists is in the adjacency list of one of the keys. */
  lemma {:induction false} ListedAt<N>(adjacency: map<N, seq<Arc<N>>>, keys: seq<N>, i: nat) returns (k: nat, j: nat)
    requires i < |Visit(adjacency, keys)|
    ensures k < |keys| && keys[k] in adjacency && j < |adjacency[keys[k]]|
    ensures Visit(adjacency, keys)[i] == adjacency[keys[k]][j]
    decreases |keys|
  {
    var init := keys[..|keys| - 1];
    var last := keys[|keys| - 1];
    var before := Visit(adjacency, init);
    if i < |before| {
      k, j := ListedAt(adjacency, init, i);
    } else {
      k, j := |keys| - 1, i - |before|;
    }
  }

  // ---------------------------------------------------------------------------
  // The graph of naive/execute_test.go: source 1..5, a mapper doubling each value, a sink.

  /** The mapper function of the test: the value's int, times two, as a new value. */
  function Double(v: Value): Fatal<seq<Value>> {
    match GetInt(v)
    case Panicked(why) => Panicked(why)
    case Returned(x) =>
      match NewValue(GoInt64(Wrap64(x * 2)))
      case Panicked(why) => Panicked(why)
      case Returned(w) => Returned([w])
  }

  function Doubled(v: Value): Value {
    if v.IntValue? then IntValue(Wrap64(v.v * 2)) else v
  }

  /** Double on an int value: the int's double, wrapped to 64 bits, as a new value. */
  lemma DoubleOfInt(x: Int64)
    ensures Double(IntValue(x)) == Returned([Doubled(IntValue(x))])
  {
    assert GetInt(IntValue(x)) == Returned(x);
    assert NewValue(GoInt64(Wrap64(x * 2))) == Returned(IntValue(Wrap64(x * 2)));
  }

  /** The mapper of the test, on the inputs 1..5, hands on 2, 4, 6, 8 and 10. */
  lemma DoubledInputs(ins: seq<Value>)
    requires ins == [IntValue(1), IntValue(2), IntValue(3), IntValue(4), IntValue(5)]
    ensures FlatMap(Double, ins) == Returned([IntValue(2), IntValue(4), IntValue(6), IntValue(8), IntValue(10)])
  {
    forall k | 0 <= k < |ins|
      ensures Double(ins[k]) == Returned([Doubled(ins[k])])
    {
      DoubleOfInt(ins[k].v);
    }
    FlatMapOneEach(Double, Doubled, ins);
    var out := FlatMap(Double, ins).value;
    assert out[0] == Doubled(ins[0]) == IntValue(2);
    assert out[1] == Doubled(ins[1]) == IntValue(4);
    assert out[2] == Doubled(ins[2]) == IntValue(6);
    assert out[3] == Doubled(ins[3]) == IntValue(8);
    assert out[4] == Doubled(ins[4]) == IntValue(10);
    assert |out| == 5;
    assert out == [IntValue(2), IntValue(4), IntValue(6), IntValue(8), IntValue(10)];
  }

  /**
   * The graph of the test, built with Connect: an arc from the source to the mapper and
   * one from the mapper to the sink.
   */
  method BuildPipeline(ins: seq<Value>) returns (g: Graph<Node>, src: Node, mapper: Node, sink: Node, input: SliceStream)
    ensures fresh(g) && fresh(src) && fresh(mapper) && fresh(sink) && fresh(input)
    ensures src != mapper && mapper != sink && src != sink
    ensures src.kind.Source? && src.ds == Slice(input) && input.Remaining() == ins
    ensures mapper.kind == Mapper(Double) && mapper.ds == NilStream
    ensures sink.kind.Sink? && sink.ds == NilStream && sink.values == []
    ensures g.adjacency == map[src := [Arc(src, Some(mapper), "")]][mapper := [Arc(mapper, Some(sink), "")]]
    ensures g.roots == map[src := true][mapper := false][sink := false]
  {
    input := new SliceStream.FromElements(ins);
    src := new Node.NewSource(Slice(input));
    mapper := new Node.NewMapper(Double);
    sink := new Node.NewSink();
    g := new Graph<Node>.Context();
    var m := g.Connect(NewArch(src), mapper, "");
    assert [] + [Arc(src, Some(mapper), "")] == [Arc(src, Some(mapper), "")];
    assert mapper !in g.adjacency;
    var _ := g.Connect(NewArch(m), sink, "");
    assert [] + [Arc(mapper, Some(sink), "")] == [Arc(mapper, Some(sink), "")];
  }

  /** The adjacency and root marks BuildPipeline leaves cover its three nodes. */
  lemma PipelineCovered(g: Graph<Node>, src: Node, mapper: Node, sink: Node, input: SliceStream)
    requires g.adjacency == map[src := [Arc(src, Some(mapper), "")]][mapper := [Arc(mapper, Some(sink), "")]]
    requires g.roots == map[src := true][mapper := false][sink := false]
    requires src.ds == Slice(input) && !mapper.ds.Slice? && !sink.ds.Slice?
    ensures Covers(g, {src, mapper, sink}) && Owned({src, mapper, sink}, {input})
  {
  }

  /** The only marked root of the test graph is the source. */
  lemma PipelineRoots<N>(marks: map<N, bool>, roots: seq<N>, src: N, mapper: N, sink: N)
    requires src != mapper && src != sink
    requires marks == map[src := true][mapper := false][sink := false]
    requires multiset(roots) == multiset(Marked(marks, marks.Keys))
    ensures roots == [src]
  {
    assert Marked(marks, marks.Keys) == {src};
    SingleRoot(roots, src);
  }

  /** One layer after another, the test graph visits a1, then a2, then nothing. */
  lemma PipelineVisits<N>(adjacency: map<N, seq<Arc<N>>>, src: N, mapper: N, sink: N)
    requires src != mapper && mapper != sink && src != sink
    requires adjacency == map[src := [Arc(src, Some(mapper), "")]][mapper := [Arc(mapper, Some(sink), "")]]
    ensures Visit(adjacency, [src]) == [Arc(src, Some(mapper), "")] && Targets(Visit(adjacency, [src])) == [mapper]
    ensures Visit(adjacency, [mapper]) == [Arc(mapper, Some(sink), "")] && Targets(Visit(adjacency, [mapper])) == [sink]
    ensures Visit(adjacency, [sink]) == [] && Targets(Visit(adjacency, [sink])) == []
  {
    VisitOne(adjacency, src);
    VisitOne(adjacency, mapper);
    VisitOne(adjacency, sink);
    TargetOne(Arc(src, Some(mapper), ""));
    TargetOne(Arc(mapper, Some(sink), ""));
  }

  /** The walk of the test graph: the arc from the source, then the arc from the mapper. */
  lemma PipelineArcs<N>(adjacency: map<N, seq<Arc<N>>>, src: N, mapper: N, sink: N)
    requires src != mapper && mapper != sink && src != sink
    requires adjacency == map[src := [Arc(src, Some(mapper), "")]][mapper := [Arc(mapper, Some(sink), "")]]
    ensures WalkFrom(adjacency, [src], 3) == ([Arc(src, Some(mapper), ""), Arc(mapper, Some(sink), "")], true)
  {
    var a1, a2 := Arc(src, Some(mapper), ""), Arc(mapper, Some(sink), "");
    PipelineVisits(adjacency, src, mapper, sink);
    assert WalkFrom(adjacency, [sink], 1) == ([], true);
    assert WalkFrom(adjacency, [mapper], 2) == ([a2] + [], true);
    assert [a2] + [] == [a2];
    assert WalkFrom(adjacency, [src], 3) == ([a1] + [a2], true);
    assert [a1] + [a2] == [a1, a2];
  }

  /** The layers of the test graph: the source, the mapper, the sink, then nothing. */
  lemma PipelineLayers<N>(adjacency: map<N, seq<Arc<N>>>, src: N, mapper: N, sink: N)
    requires src != mapper && mapper != sink && src != sink
    requires adjacency == map[src := [Arc(src, Some(mapper), "")]][mapper := [Arc(mapper, Some(sink), "")]]
    ensures Layers(adjacency, [src], 3) == [src, mapper, sink]
  {
    PipelineVisits(adjacency, src, mapper, sink);
    assert Layers(adjacency, [sink], 1) == [sink] + [];
    assert Layers(adjacency, [mapper], 2) == [mapper] + [sink];
    assert Layers(adjacency, [src], 3) == [src] + [mapper, sink];
  }

  lemma TargetOne<N>(a: Arc<N>)
    requires a.to.Some?
    ensures Targets([a]) == [a.to.value]
  {
    assert [a][..0] == [];
  }

  lemma VisitOne<N>(adjacency: map<N, seq<Arc<N>>>, n: N)
    ensures Visit(adjacency, [n]) == if n in adjacency then adjacency[n] else []
  {
    assert [n][..0] == [];
  }

  lemma SingleRoot<N>(roots: seq<N>, x: N)
    requires multiset(roots) == multiset({x})
    ensures roots == [x]
  {
    assert |roots| == 1;
    assert roots[0] in multiset(roots);
  }

  /**
   * Test_Execute, the walk: Execute on the test graph runs the source, the mapper and the
   * sink in that order and sends one stream along each arc.
   */
  method PipelineWalk() returns (r: Fatal<()>, finished: bool, ghost delivered: seq<Arc<Node>>, ghost ran: seq<Node>,
                                 src: Node, mapper: Node, sink: Node)
    ensures r.Returned? ==> finished && ran == [src, mapper, sink]
    ensures r.Returned? ==> delivered == [Arc(src, Some(mapper), ""), Arc(mapper, Some(sink), "")]
  {
    var ins := NewIntValues([1, 2, 3, 4, 5]);
    var g, input;
    g, src, mapper, sink, input := BuildPipeline(ins);
    PipelineCovered(g, src, mapper, sink, input);
    ghost var roots;
    r, finished, delivered, ran, roots := Execute(g, {src, mapper, sink}, {input}, 3);
    PipelineRoots(g.roots, roots, src, mapper, sink);
    PipelineArcs(g.adjacency, src, mapper, sink);
    PipelineLayers(g.adjacency, src, mapper, sink);
  }

  /**
   * Test_Execute, the data up to the mapper: the source hands on its input, and the
   * mapper, given it, doubles it into a new stream; the sink has received nothing yet.
   */
  method PipelineMapped() returns (sink: Node, out: SliceStream)
    ensures fresh(sink) && fresh(out) && sink.kind.Sink? && sink.ds == NilStream && sink.values == []
    ensures out.Remaining() == [IntValue(2), IntValue(4), IntValue(6), IntValue(8), IntValue(10)]
  {
    var ins := NewIntValues([1, 2, 3, 4, 5]);
    assert ins == [IntValue(1), IntValue(2), IntValue(3), IntValue(4), IntValue(5)];
    DoubledInputs(ins);
    var g, src, mapper, input;
    g, src, mapper, sink, input := BuildPipeline(ins);
    var s1 := src.Do();
    assert s1 == Returned(Slice(input)) && Footprint(Slice(input)) == {input};
    var _ := mapper.In(Slice(input));
    assert mapper.ds == Slice(input);
    var s2 := mapper.Do();
    out := s2.value.s;
  }

  /**
   * Test_Execute, the data: along that walk the source hands on its input, the mapper is
   * given it and doubles it, and the sink is given the result: it holds 2, 4, 6, 8 and 10.
   */
  method PipelineData() returns (values: seq<Value>)
    ensures values == [IntValue(2), IntValue(4), IntValue(6), IntValue(8), IntValue(10)]
  {
    var sink, out := PipelineMapped();
    assert Footprint(Slice(out)) == {out};
    var _ := sink.In(Slice(out));
    var _ := sink.Do();
    values := sink.values;
  }
}
