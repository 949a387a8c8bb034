/**
 * walk.go: a breadth-first walk in layers.  The first layer is the graph's roots; every
 * node of a layer passes each of its arcs to the callback and puts the arc's target in
 * the next layer; the walk stops at the first empty layer.  There is no visited set.
 *
 * The graph is the producer-indexed graph of graph/graph.gen.go, whose Roots and
 * Adjacents are what walk.go calls; the calls to the callback are returned as the
 * sequence of arcs it received.  A walk over a cycle never ends in Go: here the number of
 * layers is bounded by `fuel`, and the result says whether the walk reached an empty
 * layer within that bound.
 */
module LayeredWalk {
  import opened Outcomes
  import opened GraphGen

  /** The targets of the arcs, in order, one per arc that has a target. */
  function Targets<N>(arcs: seq<Arc<N>>): seq<N> {
    if arcs == [] then []
    else
      var a := arcs[|arcs| - 1];
      Targets(arcs[..|arcs| - 1]) + (if a.to.Some? then [a.to.value] else [])
  }

  lemma {:induction false} TargetsAppend<N>(x: seq<Arc<N>>, y: seq<Arc<N>>)
    ensures Targets(x + y) == Targets(x) + Targets(y)
    decreases |y|
  {
    if y == [] {
      assert x + y == x;
    } else {
      var y0 := y[..|y| - 1];
      assert (x + y)[..|x + y| - 1] == x + y0;
      TargetsAppend(x, y0);
    }
  }

  /**
   * What walk.go does from the given layer, with at most `fuel` more layers: the arcs the
   * callback receives, in order, and whether an empty layer ended the walk.
   */
  function WalkFrom<N(==)>(adjacency: map<N, seq<Arc<N>>>, layer: seq<N>, fuel: nat): (seq<Arc<N>>, bool)
    decreases fuel
  {
    if layer == [] then ([], true)
    else if fuel == 0 then ([], false)
    else
      var arcs := Visit(adjacency, layer);
      var rest := WalkFrom(adjacency, Targets(arcs), fuel - 1);
      (arcs + rest.0, rest.1)
  }

  /** The walk from `layer` is `done` followed by the walk that is still ahead. */
  ghost predicate Progress<N>(adjacency: map<N, seq<Arc<N>>>, roots: seq<N>, fuel: nat,
                                  done: seq<Arc<N>>, layer: seq<N>, steps: nat)
  {
    steps <= fuel &&
    WalkFrom(adjacency, roots, fuel) ==
      (done + WalkFrom(adjacency, layer, fuel - steps).0, WalkFrom(adjacency, layer, fuel - steps).1)
  }

  lemma ProgressStep<N>(adjacency: map<N, seq<Arc<N>>>, roots: seq<N>, fuel: nat,
                        done: seq<Arc<N>>, layer: seq<N>, steps: nat)
    requires Progress(adjacency, roots, fuel, done, layer, steps)
    requires layer != [] && steps < fuel
    ensures Progress(adjacency, roots, fuel, done + Visit(adjacency, layer),
                     Targets(Visit(adjacency, layer)), steps + 1)
  {
    var arcs := Visit(adjacency, layer);
    var rest := WalkFrom(adjacency, Targets(arcs), fuel - (steps + 1));
    assert WalkFrom(adjacency, layer, fuel - steps) == (arcs + rest.0, rest.1);
    assert done + (arcs + rest.0) == (done + arcs) + rest.0;
  }

  /**
   * One pass of walk.go's layer loop: for each node of the layer in order, each of its
   * arcs goes to the callback and the arc's target to the next layer.
   */
  method ExpandLayer<N(==)>(g: Graph<N>, layer: seq<N>) returns (calls: seq<Arc<N>>, next: seq<N>)
    ensures calls == Visit(g.adjacency, layer)
    ensures next == Targets(calls)
  {
    calls, next := [], [];
    var i := 0;
    while i < |layer|
      invariant 0 <= i <= |layer|
      invariant calls == Visit(g.adjacency, layer[..i])
      invariant next == Targets(calls)
    {
      var adj := g.Adjacents(layer[i]);
      assert layer[..i + 1][..i] == layer[..i];
      assert Visit(g.adjacency, layer[..i + 1]) == Visit(g.adjacency, layer[..i]) + adj;
      ghost var mid := calls;
      var c, n := VisitArcs(adj);
      calls, next := calls + c, next + n;
      TargetsAppend(mid, adj);
      i := i + 1;
    }
    assert layer[..i] == layer;
  }

  /** The inner loop of ExpandLayer: each arc goes to the callback and its target, if any, to the next layer. */
  method VisitArcs<N>(adj: seq<Arc<N>>) returns (calls: seq<Arc<N>>, next: seq<N>)
    ensures calls == adj
    ensures next == Targets(adj)
  {
    calls, next := [], [];
    var j := 0;
    while j < |adj|
      invariant 0 <= j <= |adj|
      invariant calls == adj[..j]
      invariant next == Targets(adj[..j])
    {
      var a := adj[j];
      calls := calls + [a];
      assert adj[..j + 1] == adj[..j] + [a];
      TargetsAppend(adj[..j], [a]);
      assert Targets([a]) == (if a.to.Some? then [a.to.value] else []) by {
        assert [a][..0] == [];
      }
      if a.to.Some? {
        next := next + [a.to.value];
      }
      j := j + 1;
    }
    assert adj[..j] == adj;
  }

  /**
   * Walk: the callback receives the arcs of walk.go's layers, starting from the roots
   * in representation order.  `finished` is false only when `fuel` layers went by and
   * the last of them was not empty.
   */
  method Walk<N(==)>(g: Graph<N>, show: N -> string, fuel: nat) returns (visited: seq<Arc<N>>, finished: bool, ghost roots: seq<N>)
    ensures multiset(roots) == multiset(Marked(g.roots, g.roots.Keys)) && Sorted(show, roots)
    ensures (visited, finished) == WalkFrom(g.adjacency, roots, fuel)
  {
    var layer := g.Roots(show);
    roots := layer;
    visited := [];
    var steps := 0;
    assert visited + WalkFrom(g.adjacency, layer, fuel).0 == WalkFrom(g.adjacency, layer, fuel).0;
    while layer != [] && steps < fuel
      invariant Progress(g.adjacency, roots, fuel, visited, layer, steps)
      decreases fuel - steps
    {
      ProgressStep(g.adjacency, roots, fuel, visited, layer, steps);
      var calls, next := ExpandLayer(g, layer);
      visited := visited + calls;
      layer := next;
      steps := steps + 1;
    }
    finished := layer == [];
    assert WalkFrom(g.adjacency, layer, fuel - steps) == ([], finished);
    assert visited + [] == visited;
  }

  // ---------------------------------------------------------------------------
  // No visited set: a node is expanded once per time it appears in a layer.

  /** Every listed arc leaves the node it is listed under, as the graph's adjacency lists do. */
  ghost predicate ListedUnderProducer<N>(adjacency: map<N, seq<Arc<N>>>) {
    forall n, a :: n in adjacency && a in adjacency[n] ==> a.from == n
  }

  /**
   * In the expansion of a layer, an arc occurs once for every time its producer occurs in
   * the layer (times the number of times it is listed under that producer).
   */
  lemma {:induction false} ExpandedPerAppearance<N>(adjacency: map<N, seq<Arc<N>>>, layer: seq<N>, a: Arc<N>)
    requires ListedUnderProducer(adjacency)
    ensures multiset(Visit(adjacency, layer))[a] ==
            multiset(layer)[a.from] * multiset(if a.from in adjacency then adjacency[a.from] else [])[a]
    decreases |layer|
  {
    if layer != [] {
      var init := layer[..|layer| - 1];
      var m := layer[|layer| - 1];
      assert layer == init + [m];
      ExpandedPerAppearance(adjacency, init, a);
      var adj := if m in adjacency then adjacency[m] else [];
      var own := multiset(if a.from in adjacency then adjacency[a.from] else [])[a];
      var c := multiset(init)[a.from];
      assert Visit(adjacency, layer) == Visit(adjacency, init) + adj;
      assert multiset(Visit(adjacency, layer))[a] == multiset(Visit(adjacency, init))[a] + multiset(adj)[a];
      assert multiset(layer) == multiset(init) + multiset{m};
      if m == a.from {
        assert multiset(layer)[a.from] == c + 1;
        assert (c + 1) * own == c * own + own;
      } else {
        assert multiset(layer)[a.from] == c;
        assert a !in adj;
      }
    }
  }

  /** Every graph built by Context and Connect lists its arcs under their producers. */
  lemma ValidListsUnderProducer<N>(g: Graph<N>)
    requires g.Valid()
    ensures ListedUnderProducer(g.adjacency)
  {
    forall n, a | n in g.adjacency && a in g.adjacency[n] ensures a.from == n {
      FromProducer(g.arcs, n);
    }
  }

  // ---------------------------------------------------------------------------
  // The walk ends exactly on graphs without a cycle reachable from the layer.

  /** A set of nodes each of which has an arc to a node of the set: a cycle, or a union of cycles. */
  ghost predicate Closed<N>(adjacency: map<N, seq<Arc<N>>>, c: set<N>) {
    forall n {:trigger Member(c, n)} :: n in c ==> n in adjacency && exists a :: a in adjacency[n] && a.to.Some? && a.to.value in c
  }

  /** Membership, named so that the quantifier of Closed fires only where a proof asks for it. */
  ghost predicate Member<N>(c: set<N>, n: N) {
    n in c
  }

  /** An arc listed under a node of the layer is in the layer's expansion. */
  lemma {:induction false} InVisit<N>(adjacency: map<N, seq<Arc<N>>>, layer: seq<N>, i: nat, a: Arc<N>)
    requires i < |layer| && layer[i] in adjacency && a in adjacency[layer[i]]
    ensures a in Visit(adjacency, layer)
    decreases |layer|
  {
    if i < |layer| - 1 {
      assert layer[..|layer| - 1][i] == layer[i];
      InVisit(adjacency, layer[..|layer| - 1], i, a);
    }
  }

  /** The target of an arc with a target is in Targets. */
  lemma {:induction false} InTargets<N>(arcs: seq<Arc<N>>, a: Arc<N>)
    requires a in arcs && a.to.Some?
    ensures a.to.value in Targets(arcs)
    decreases |arcs|
  {
    if arcs[|arcs| - 1] != a {
      var init := arcs[..|arcs| - 1];
      assert arcs == init + [arcs[|arcs| - 1]];
      InTargets(init, a);
    }
  }

  /** A walk that meets a cycle never reaches an empty layer, whatever the fuel. */
  lemma {:induction false} WalkDivergesOnCycle<N>(adjacency: map<N, seq<Arc<N>>>, c: set<N>, layer: seq<N>, i: nat, fuel: nat)
    requires Closed(adjacency, c)
    requires i < |layer| && layer[i] in c
    ensures !WalkFrom(adjacency, layer, fuel).1
    decreases fuel
  {
    if fuel > 0 {
      var n := layer[i];
      assert Member(c, n);
      var a :| a in adjacency[n] && a.to.Some? && a.to.value in c;
      InVisit(adjacency, layer, i, a);
      var arcs := Visit(adjacency, layer);
      InTargets(arcs, a);
      var next := Targets(arcs);
      var k :| 0 <= k < |next| && next[k] == a.to.value;
      WalkDivergesOnCycle(adjacency, c, next, k, fuel - 1);
      assert WalkFrom(adjacency, layer, fuel).1 == WalkFrom(adjacency, next, fuel - 1).1;
    }
  }

  /** A rank that every arc target has below its producer's: the graph has no cycle. */
  ghost predicate Ranked<N>(adjacency: map<N, seq<Arc<N>>>, rank: N -> nat) {
    forall n, a :: n in adjacency && a in adjacency[n] && a.to.Some? ==> rank(a.to.value) < rank(n)
  }

  /** Every target in a layer's expansion ranks below some node of the layer. */
  lemma {:induction false} TargetsRankBelow<N>(adjacency: map<N, seq<Arc<N>>>, rank: N -> nat, layer: seq<N>, bound: nat)
    requires Ranked(adjacency, rank)
    requires forall n :: n in layer ==> rank(n) <= bound
    ensures forall m :: m in Targets(Visit(adjacency, layer)) ==> rank(m) < bound
    decreases |layer|
  {
    if layer != [] {
      var init := layer[..|layer| - 1];
      var last := layer[|layer| - 1];
      assert forall n :: n in init ==> n in layer;
      TargetsRankBelow(adjacency, rank, init, bound);
      var adj := if last in adjacency then adjacency[last] else [];
      TargetsAppend(Visit(adjacency, init), adj);
      TargetsRank(adjacency, rank, last, adj, bound);
    }
  }

  lemma {:induction false} TargetsRank<N>(adjacency: map<N, seq<Arc<N>>>, rank: N -> nat, n: N, arcs: seq<Arc<N>>, bound: nat)
    requires Ranked(adjacency, rank) && rank(n) <= bound
    requires arcs == [] || (n in adjacency && forall a :: a in arcs ==> a in adjacency[n])
    ensures forall m :: m in Targets(arcs) ==> rank(m) < bound
    decreases |arcs|
  {
    if arcs != [] {
      var init := arcs[..|arcs| - 1];
      assert forall a :: a in init ==> a in arcs;
      TargetsRank(adjacency, rank, n, init, bound);
      assert arcs[|arcs| - 1] in adjacency[n];
    }
  }

  /** On a graph without cycles the walk reaches an empty layer once the fuel exceeds every rank in the layer. */
  lemma {:induction false} WalkEndsWhenRanked<N>(adjacency: map<N, seq<Arc<N>>>, rank: N -> nat, layer: seq<N>, fuel: nat)
    requires Ranked(adjacency, rank)
    requires forall n :: n in layer ==> rank(n) < fuel
    ensures WalkFrom(adjacency, layer, fuel).1
    decreases fuel
  {
    if layer != [] {
      assert layer[0] in layer;
      var next := Targets(Visit(adjacency, layer));
      TargetsRankBelow(adjacency, rank, layer, fuel - 1);
      WalkEndsWhenRanked(adjacency, rank, next, fuel - 1);
    }
  }
}
