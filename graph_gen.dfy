/**
 * graph/graph.gen.go: a topology recorded as an adjacency map from each producer to its
 * outgoing arcs, in connection order, and a roots map that tells which nodes have only
 * ever appeared as producers.  Roots and Walk go through the nodes sorted by their
 * `%v` rendering, which is the parameter `show` here.
 */
module GraphGen {
  import opened Outcomes
  import GraphBuilder

  /** An arch: producer, consumer (nil until the arc is connected) and name. */
  datatype Arc<N> = Arc(from: N, to: Option<N>, name: string)

  /** NewArch: an arc out of `from` with no target and an empty name. */
  function NewArch<N>(from: N): (a: Arc<N>)
    ensures a.from == from && a.to == None && a.name == ""
  {
    Arc(from, None, "")
  }

  /** `%v` of a node, or of the nil interface. */
  function ShowNode<N>(show: N -> string, n: Option<N>): string {
    match n
    case None => "<nil>"
    case Some(v) => show(v)
  }

  /** arch.String: "from -> to [name: name]". */
  function ArcString<N>(show: N -> string, a: Arc<N>): (s: string)
    ensures |s| >= |show(a.from)| + 4 && s[..|show(a.from)| + 4] == show(a.from) + " -> "
    ensures |s| >= |a.name| + 1 && s[|s| - |a.name| - 1..] == a.name + "]"
    ensures a.to == None ==> s == show(a.from) + " -> <nil> [name: " + a.name + "]"
  {
    show(a.from) + " -> " + ShowNode(show, a.to) + " [" + "name: " + a.name + "]"
  }

  /** What Graph.String writes for arcs visited in this order: one line per arc. */
  function Render<N>(show: N -> string, arcs: seq<Arc<N>>): string {
    if arcs == [] then ""
    else Render(show, arcs[..|arcs| - 1]) + (ArcString(show, arcs[|arcs| - 1]) + "\n")
  }

  /**
   * When no line prints a newline of its own, the printout has exactly one line per arc:
   * as many newlines as arcs.
   */
  lemma {:induction false} RenderLines<N>(show: N -> string, arcs: seq<Arc<N>>)
    requires forall i :: 0 <= i < |arcs| ==> '\n' !in ArcString(show, arcs[i])
    ensures GraphBuilder.Count('\n', Render(show, arcs)) == |arcs|
    decreases |arcs|
  {
    if arcs != [] {
      var init := arcs[..|arcs| - 1];
      var line := ArcString(show, arcs[|arcs| - 1]);
      RenderLines(show, init);
      GraphBuilder.CountAppend('\n', Render(show, init), line + "\n");
      GraphBuilder.CountAppend('\n', line, "\n");
      GraphBuilder.CountNone('\n', line);
      assert GraphBuilder.Count('\n', "\n") == 1 by {
        assert "\n"[..0] == "";
      }
    }
  }

  /** A printout of every arc once, in any order, has one line per arc. */
  lemma LinesOfArcs<N>(show: N -> string, visited: seq<Arc<N>>, arcs: seq<Arc<N>>)
    requires multiset(visited) == multiset(arcs)
    requires forall a :: a in arcs ==> '\n' !in ArcString(show, a)
    ensures GraphBuilder.Count('\n', Render(show, visited)) == |arcs|
  {
    assert |visited| == |multiset(visited)| == |multiset(arcs)| == |arcs|;
    forall j | 0 <= j < |visited|
      ensures '\n' !in ArcString(show, visited[j])
    {
      assert visited[j] in multiset(visited);
      assert visited[j] in multiset(arcs);
    }
    RenderLines(show, visited);
  }

  // ---------------------------------------------------------------------------
  // Ordering by representation: strings.Compare(x, y) < 0.  Go compares the UTF-8
  // bytes; UTF-8 keeps code-point order, so comparing characters gives the same answer.

  predicate Less(x: string, y: string) {
    if x == [] then y != []
    else if y == [] then false
    else if x[0] != y[0] then x[0] < y[0]
    else Less(x[1..], y[1..])
  }

  lemma {:induction false} LessIrreflexive(x: string)
    ensures !Less(x, x)
    decreases |x|
  {
    if x != [] {
      LessIrreflexive(x[1..]);
    }
  }

  lemma {:induction false} LessTransitive(x: string, y: string, z: string)
    requires Less(x, y) && Less(y, z)
    ensures Less(x, z)
    decreases |x|
  {
    if x != [] && x[0] == y[0] && y[0] == z[0] {
      LessTransitive(x[1..], y[1..], z[1..]);
    }
  }

  lemma {:induction false} LessTotal(x: string, y: string)
    requires x != y
    ensures Less(x, y) || Less(y, x)
    decreases |x|
  {
    if x != [] && y != [] && x[0] == y[0] {
      assert x == [x[0]] + x[1..] && y == [y[0]] + y[1..];
      LessTotal(x[1..], y[1..]);
    }
  }

  /** No element is ordered strictly before an earlier one. */
  predicate Sorted<N>(show: N -> string, xs: seq<N>) {
    forall i, j :: 0 <= i < j < |xs| ==> !Less(show(xs[j]), show(xs[i]))
  }

  /** x placed before the first element it orders strictly before. */
  function Insert<N>(show: N -> string, xs: seq<N>, x: N): (r: seq<N>)
    ensures multiset(r) == multiset(xs) + multiset{x}
  {
    if xs == [] then [x]
    else if Less(show(x), show(xs[0])) then [x] + xs
    else
      assert xs == [xs[0]] + xs[1..];
      [xs[0]] + Insert(show, xs[1..], x)
  }

  lemma {:induction false} InsertSorted<N>(show: N -> string, xs: seq<N>, x: N)
    requires Sorted(show, xs)
    ensures Sorted(show, Insert(show, xs, x))
    decreases |xs|
  {
    if xs == [] {
    } else if Less(show(x), show(xs[0])) {
      var r := [x] + xs;
      forall i, j | 0 <= i < j < |r| ensures !Less(show(r[j]), show(r[i])) {
        if i == 0 {
          if Less(show(r[j]), show(x)) {
            if j == 1 {
              LessIrreflexive(show(x));
              LessTransitive(show(x), show(xs[0]), show(x));
            } else {
              LessTransitive(show(r[j]), show(x), show(xs[0]));
            }
          }
        }
      }
    } else {
      var tail := Insert(show, xs[1..], x);
      InsertSorted(show, xs[1..], x);
      var r := [xs[0]] + tail;
      forall i, j | 0 <= i < j < |r| ensures !Less(show(r[j]), show(r[i])) {
        if i == 0 {
          var y := r[j];
          assert y in multiset(tail);
          assert y in multiset(xs[1..]) + multiset{x};
          if y != x {
            assert y in xs[1..];
            var k :| 0 <= k < |xs[1..]| && xs[1..][k] == y;
            assert xs[k + 1] == y;
          }
        }
      }
    }
  }

  /**
   * sort.Sort(nodesByRepr(xs)): the same nodes, ordered by representation.  Nodes with
   * the same representation may come out in any order in Go, whose sort is not stable;
   * the contract fixes none.
   */
  method SortByRepr<N>(show: N -> string, xs: seq<N>) returns (r: seq<N>)
    ensures multiset(r) == multiset(xs)
    ensures Sorted(show, r)
  {
    r := [];
    var i := 0;
    while i < |xs|
      invariant 0 <= i <= |xs|
      invariant multiset(r) == multiset(xs[..i])
      invariant Sorted(show, r)
    {
      InsertSorted(show, r, xs[i]);
      assert xs[..i + 1] == xs[..i] + [xs[i]];
      r := Insert(show, r, xs[i]);
      i := i + 1;
    }
    assert xs[..i] == xs;
  }

  // ---------------------------------------------------------------------------
  // What the maps hold, as functions of the arcs added so far.

  /** The producers of the arcs. */
  ghost function Producers<N>(arcs: seq<Arc<N>>): set<N> {
    set i | 0 <= i < |arcs| :: arcs[i].from
  }

  /** The consumers of the arcs. */
  ghost function Consumers<N>(arcs: seq<Arc<N>>): set<N> {
    set i | 0 <= i < |arcs| && arcs[i].to.Some? :: arcs[i].to.value
  }

  /** The arcs out of n, in the order they were added. */
  function From<N(==)>(arcs: seq<Arc<N>>, n: N): seq<Arc<N>> {
    if arcs == [] then []
    else From(arcs[..|arcs| - 1], n) + (if arcs[|arcs| - 1].from == n then [arcs[|arcs| - 1]] else [])
  }

  lemma {:induction false} FromElsewhere<N>(arcs: seq<Arc<N>>, n: N)
    requires n !in Producers(arcs)
    ensures From(arcs, n) == []
    decreases |arcs|
  {
    if arcs != [] {
      var init := arcs[..|arcs| - 1];
      assert Producers(init) <= Producers(arcs) by {
        forall m | m in Producers(init) ensures m in Producers(arcs) {
          var i :| 0 <= i < |init| && init[i].from == m;
          assert arcs[i] == init[i];
        }
      }
      FromElsewhere(init, n);
      assert arcs[|arcs| - 1].from in Producers(arcs);
    }
  }

  /** The arcs out of the given producers, producer after producer: what Walk visits. */
  function Visit<N(==)>(adjacency: map<N, seq<Arc<N>>>, keys: seq<N>): seq<Arc<N>> {
    if keys == [] then []
    else
      var k := keys[|keys| - 1];
      Visit(adjacency, keys[..|keys| - 1]) + (if k in adjacency then adjacency[k] else [])
  }

  /** The same enumeration over arcs: the arcs out of each key in turn. */
  function VisitFrom<N(==)>(arcs: seq<Arc<N>>, keys: seq<N>): seq<Arc<N>> {
    if keys == [] then []
    else VisitFrom(arcs, keys[..|keys| - 1]) + From(arcs, keys[|keys| - 1])
  }

  /** Adding an arc adds it to its own producer's list and to no other. */
  lemma FromSnoc<N>(arcs: seq<Arc<N>>, a: Arc<N>, k: N)
    ensures From(arcs + [a], k) == From(arcs, k) + (if a.from == k then [a] else [])
  {
    assert (arcs + [a])[..|arcs + [a]| - 1] == arcs;
  }

  /** The enumeration over keys ++ [k] is the one over keys, then k's arcs. */
  lemma VisitFromSnocKey<N>(arcs: seq<Arc<N>>, keys: seq<N>, k: N)
    ensures multiset(VisitFrom(arcs, keys + [k])) == multiset(VisitFrom(arcs, keys)) + multiset(From(arcs, k))
  {
    assert (keys + [k])[..|keys + [k]| - 1] == keys;
  }

  /**
   * Adding an arc adds it once to the enumeration when its producer is one of the keys,
   * and not at all when it is none.
   */
  lemma {:induction false} VisitFromSnoc<N>(arcs: seq<Arc<N>>, a: Arc<N>, keys: seq<N>)
    requires multiset(keys)[a.from] <= 1
    ensures multiset(VisitFrom(arcs + [a], keys)) ==
            multiset(VisitFrom(arcs, keys)) + (if a.from in keys then multiset{a} else multiset{})
    decreases |keys|
  {
    if keys != [] {
      var init := keys[..|keys| - 1];
      var k := keys[|keys| - 1];
      assert keys == init + [k];
      assert multiset(keys) == multiset(init) + multiset{k};
      VisitFromSnoc(arcs, a, init);
      FromSnoc(arcs, a, k);
      VisitFromSnocKey(arcs + [a], init, k);
      VisitFromSnocKey(arcs, init, k);
      var A, F := multiset(VisitFrom(arcs, init)), multiset(From(arcs, k));
      var extra := if a.from == k then multiset{a} else multiset{};
      var before := if a.from in init then multiset{a} else multiset{};
      assert multiset(From(arcs + [a], k)) == F + extra;
      assert a.from in keys <==> a.from in init || a.from == k;
      assert a.from == k ==> a.from !in init;
      SumCases(A, F, before, extra, a, a.from in keys);
    }
  }

  lemma SumCases<T>(A: multiset<T>, F: multiset<T>, before: multiset<T>, extra: multiset<T>, a: T, present: bool)
    requires before == multiset{} || extra == multiset{}
    requires before + extra == (if present then multiset{a} else multiset{})
    ensures A + before + (F + extra) == A + F + (if present then multiset{a} else multiset{})
  {
  }

  /** Going through distinct keys that cover every producer enumerates every arc exactly once. */
  lemma {:induction false} VisitFromAll<N>(arcs: seq<Arc<N>>, keys: seq<N>, producers: set<N>)
    requires multiset(keys) == multiset(producers) && Producers(arcs) <= producers
    ensures multiset(VisitFrom(arcs, keys)) == multiset(arcs)
    decreases |arcs|
  {
    if arcs == [] {
      EmptyVisit(keys);
    } else {
      var init := arcs[..|arcs| - 1];
      var a := arcs[|arcs| - 1];
      assert arcs == init + [a];
      assert Producers(init) <= Producers(arcs) by {
        forall m | m in Producers(init) ensures m in Producers(arcs) {
          var i :| 0 <= i < |init| && init[i].from == m;
          assert arcs[i] == init[i];
        }
      }
      VisitFromAll(init, keys, producers);
      assert a.from in Producers(arcs);
      assert multiset(keys)[a.from] == 1;
      VisitFromSnoc(init, a, keys);
    }
  }

  lemma {:induction false} EmptyVisit<N>(keys: seq<N>)
    ensures VisitFrom([], keys) == []
    decreases |keys|
  {
    if keys != [] {
      EmptyVisit(keys[..|keys| - 1]);
    }
  }

  /** Where the adjacency lists are the per-producer arcs, the two enumerations agree. */
  lemma {:induction false} VisitIsVisitFrom<N>(adjacency: map<N, seq<Arc<N>>>, arcs: seq<Arc<N>>, keys: seq<N>)
    requires adjacency.Keys == Producers(arcs)
    requires forall n :: n in adjacency ==> adjacency[n] == From(arcs, n)
    ensures Visit(adjacency, keys) == VisitFrom(arcs, keys)
    decreases |keys|
  {
    if keys != [] {
      var k := keys[|keys| - 1];
      VisitIsVisitFrom(adjacency, arcs, keys[..|keys| - 1]);
      if k !in adjacency {
        FromElsewhere(arcs, k);
      }
    }
  }

  /** The adjacency map lists every producer's arcs, in the order they were added. */
  ghost predicate AdjacencyOf<N>(adjacency: map<N, seq<Arc<N>>>, arcs: seq<Arc<N>>) {
    && adjacency.Keys == Producers(arcs)
    && (forall n :: n in adjacency ==> adjacency[n] == From(arcs, n))
  }

  /** A node is marked root exactly when it has been a producer and never a consumer. */
  ghost predicate RootsOf<N>(roots: map<N, bool>, arcs: seq<Arc<N>>) {
    && roots.Keys == Producers(arcs) + Consumers(arcs)
    && (forall n :: n in roots ==> (roots[n] <==> n in Producers(arcs) && n !in Consumers(arcs)))
  }

  /** Appending an arc to its producer's list keeps the adjacency map in step with the arcs. */
  lemma AddAdjacency<N>(adjacency: map<N, seq<Arc<N>>>, arcs: seq<Arc<N>>, a: Arc<N>)
    requires AdjacencyOf(adjacency, arcs)
    ensures AdjacencyOf(adjacency[a.from := (if a.from in adjacency then adjacency[a.from] else []) + [a]], arcs + [a])
  {
    var adj' := adjacency[a.from := (if a.from in adjacency then adjacency[a.from] else []) + [a]];
    ProducersSnoc(arcs, a);
    if a.from !in adjacency {
      FromElsewhere(arcs, a.from);
    }
    forall n | n in adj' ensures adj'[n] == From(arcs + [a], n) {
      FromSnoc(arcs, a, n);
    }
  }

  /**
   * Marking the producer root when it is new and the consumer non-root keeps the roots
   * map in step with the arcs.
   */
  lemma AddRoots<N>(roots: map<N, bool>, arcs: seq<Arc<N>>, a: Arc<N>)
    requires RootsOf(roots, arcs) && a.to.Some?
    ensures RootsOf((if a.from in roots then roots else roots[a.from := true])[a.to.value := false], arcs + [a])
  {
    ProducersSnoc(arcs, a);
    ConsumersSnoc(arcs, a);
  }

  /** The nodes of s that the roots map marks true. */
  ghost function Marked<N>(roots: map<N, bool>, s: set<N>): set<N> {
    set n | n in s && n in roots && roots[n]
  }

  lemma MarkedStep<N>(roots: map<N, bool>, done: set<N>, n: N)
    requires n in roots && n !in done
    ensures multiset(Marked(roots, done + {n})) ==
            multiset(Marked(roots, done)) + (if roots[n] then multiset{n} else multiset{})
  {
    if roots[n] {
      assert Marked(roots, done + {n}) == Marked(roots, done) + {n};
    } else {
      assert Marked(roots, done + {n}) == Marked(roots, done);
    }
  }

  /** The marked nodes are the producers that are no consumer. */
  lemma RootsAreSources<N>(roots: map<N, bool>, arcs: seq<Arc<N>>)
    requires RootsOf(roots, arcs)
    ensures Marked(roots, roots.Keys) == Producers(arcs) - Consumers(arcs)
  {
  }

  class Graph<N(==)> {
    var adjacency: map<N, seq<Arc<N>>>
    var roots: map<N, bool>
    /** Every arc added so far, in order. */
    ghost var arcs: seq<Arc<N>>

    /** The maps are the arcs added so far, read two ways; every added arc has a consumer. */
    ghost predicate Valid()
      reads this
    {
      && (forall i :: 0 <= i < |arcs| ==> arcs[i].to.Some?)
      && AdjacencyOf(adjacency, arcs)
      && RootsOf(roots, arcs)
    }

    /** Context: the graph a fresh context holds, with empty maps. */
    constructor Context()
      ensures adjacency == map[] && roots == map[] && arcs == []
      ensures Valid()
    {
      adjacency := map[];
      roots := map[];
      arcs := [];
    }

    /**
     * add: the arc goes at the end of its producer's list; the producer is marked root
     * unless it is already known, and the consumer is marked non-root.
     */
    method Add(a: Arc<N>)
      requires Valid() && a.to.Some?
      modifies this
      ensures adjacency == old(adjacency)[a.from := (if a.from in old(adjacency) then old(adjacency)[a.from] else []) + [a]]
      ensures roots == (if a.from in old(roots) then old(roots) else old(roots)[a.from := true])[a.to.value := false]
      ensures arcs == old(arcs) + [a]
      ensures Valid()
    {
      AddAdjacency(adjacency, arcs, a);
      AddRoots(roots, arcs, a);
      var list := if a.from in adjacency then adjacency[a.from] else [];
      var marks := roots;
      if a.from !in marks {
        marks := marks[a.from := true];
      }
      adjacency, roots, arcs := adjacency[a.from := list + [a]], marks[a.to.value := false], arcs + [a];
    }

    /** Adjacents: n's adjacency list, which is nil for a node that has no arcs out. */
    function Adjacents(n: N): (r: seq<Arc<N>>)
      reads this
      ensures n !in adjacency ==> r == []
      ensures n in adjacency ==> r == adjacency[n]
    {
      if n in adjacency then adjacency[n] else []
    }

    /** Adjacents lists exactly the arcs out of n, in connection order. */
    lemma AdjacentsInOrder(n: N)
      requires Valid()
      ensures Adjacents(n) == From(arcs, n)
      ensures forall a :: a in Adjacents(n) ==> a.from == n
    {
      if n !in adjacency {
        FromElsewhere(arcs, n);
      }
      FromProducer(arcs, n);
    }

    /** Roots: the nodes that are marked root, each once, ordered by representation. */
    method Roots(show: N -> string) returns (r: seq<N>)
      ensures multiset(r) == multiset(Marked(roots, roots.Keys))
      ensures Sorted(show, r)
      ensures Valid() ==> multiset(r) == multiset(Producers(arcs) - Consumers(arcs))
    {
      var found: seq<N> := [];
      var remaining := roots.Keys;
      ghost var done: set<N> := {};
      while remaining != {}
        invariant remaining + done == roots.Keys && remaining !! done
        invariant multiset(found) == multiset(Marked(roots, done))
        decreases |remaining|
      {
        var n :| n in remaining;
        MarkedStep(roots, done, n);
        if roots[n] {
          found := found + [n];
        }
        remaining := remaining - {n};
        done := done + {n};
      }
      r := SortByRepr(show, found);
      if Valid() {
        RootsAreSources(roots, arcs);
      }
    }

    /** The keys of the adjacency map, in the order a range loop over it meets them. */
    method ProducerList() returns (found: seq<N>)
      ensures multiset(found) == multiset(adjacency.Keys)
    {
      found := [];
      var remaining := adjacency.Keys;
      while remaining != {}
        invariant remaining <= adjacency.Keys
        invariant multiset(found) == multiset(adjacency.Keys - remaining)
        decreases |remaining|
      {
        var n :| n in remaining;
        assert adjacency.Keys - (remaining - {n}) == (adjacency.Keys - remaining) + {n};
        found := found + [n];
        remaining := remaining - {n};
      }
      assert adjacency.Keys - remaining == adjacency.Keys;
    }

    /**
     * Walk: the producers ordered by representation, and for each of them its arcs in
     * connection order.  Every arc added to the graph is visited exactly once.
     */
    method Walk(show: N -> string) returns (visited: seq<Arc<N>>, ghost keys: seq<N>)
      ensures multiset(keys) == multiset(adjacency.Keys) && Sorted(show, keys)
      ensures visited == Visit(adjacency, keys)
      ensures Valid() ==> multiset(visited) == multiset(arcs)
    {
      var found := ProducerList();
      var sorted := SortByRepr(show, found);
      keys := sorted;
      visited := [];
      var i := 0;
      while i < |sorted|
        invariant 0 <= i <= |sorted|
        invariant visited == Visit(adjacency, sorted[..i])
      {
        assert sorted[..i + 1][..i] == sorted[..i];
        var adj := if sorted[i] in adjacency then adjacency[sorted[i]] else [];
        var j := 0;
        ghost var before := visited;
        while j < |adj|
          invariant 0 <= j <= |adj|
          invariant visited == before + adj[..j]
        {
          visited := visited + [adj[j]];
          j := j + 1;
        }
        assert adj[..j] == adj;
        i := i + 1;
      }
      assert sorted[..i] == sorted;
      if Valid() {
        WalkComplete(keys);
      }
    }

    /** With distinct keys that are the producers, the walk's enumeration is every arc once. */
    lemma WalkComplete(keys: seq<N>)
      requires Valid()
      requires multiset(keys) == multiset(adjacency.Keys)
      ensures multiset(Visit(adjacency, keys)) == multiset(arcs)
    {
      VisitIsVisitFrom(adjacency, arcs, keys);
      VisitFromAll(arcs, keys, adjacency.Keys);
    }

    /** Graph.String: one line per arc, in the order Walk visits them. */
    method String(show: N -> string) returns (s: string, ghost keys: seq<N>)
      ensures multiset(keys) == multiset(adjacency.Keys) && Sorted(show, keys)
      ensures s == Render(show, Visit(adjacency, keys))
      ensures Valid() && (forall a :: a in arcs ==> '\n' !in ArcString(show, a)) ==>
                GraphBuilder.Count('\n', s) == |arcs|
    {
      var visited;
      visited, keys := Walk(show);
      s := "";
      var i := 0;
      while i < |visited|
        invariant 0 <= i <= |visited|
        invariant s == Render(show, visited[..i])
      {
        assert visited[..i + 1][..i] == visited[..i];
        s := s + (ArcString(show, visited[i]) + "\n");
        i := i + 1;
      }
      assert visited[..i] == visited;
      if Valid() && (forall a :: a in arcs ==> '\n' !in ArcString(show, a)) {
        LinesOfArcs(show, visited, arcs);
      }
    }

    /**
     * arch.Connect: a new arc from the receiver's producer to `node`, with the given name,
     * is added to the graph, and `node` is returned.  The receiver is a value here and
     * stays as it was.
     */
    method Connect(a: Arc<N>, node: N, name: string) returns (r: N)
      requires Valid()
      modifies this
      ensures arcs == old(arcs) + [Arc(a.from, Some(node), name)]
      ensures adjacency == old(adjacency)[a.from := (if a.from in old(adjacency) then old(adjacency)[a.from] else []) + [Arc(a.from, Some(node), name)]]
      ensures roots == (if a.from in old(roots) then old(roots) else old(roots)[a.from := true])[node := false]
      ensures Valid()
      ensures r == node
    {
      var clone := Arc(a.from, Some(node), name);
      Add(clone);
      r := node;
    }
  }

  /** The producers grow by the new arc's producer. */
  lemma ProducersSnoc<N>(arcs: seq<Arc<N>>, a: Arc<N>)
    ensures Producers(arcs + [a]) == Producers(arcs) + {a.from}
  {
    var arcs' := arcs + [a];
    forall m | m in Producers(arcs') ensures m in Producers(arcs) + {a.from} {
      var i :| 0 <= i < |arcs'| && arcs'[i].from == m;
      if i < |arcs| {
        assert arcs[i] == arcs'[i];
      }
    }
    forall m | m in Producers(arcs) ensures m in Producers(arcs') {
      var i :| 0 <= i < |arcs| && arcs[i].from == m;
      assert arcs'[i] == arcs[i];
    }
    assert arcs'[|arcs|] == a;
  }

  /** The consumers grow by the new arc's consumer. */
  lemma ConsumersSnoc<N>(arcs: seq<Arc<N>>, a: Arc<N>)
    requires a.to.Some?
    ensures Consumers(arcs + [a]) == Consumers(arcs) + {a.to.value}
  {
    var arcs' := arcs + [a];
    forall m | m in Consumers(arcs') ensures m in Consumers(arcs) + {a.to.value} {
      var i :| 0 <= i < |arcs'| && arcs'[i].to.Some? && arcs'[i].to.value == m;
      if i < |arcs| {
        assert arcs[i] == arcs'[i];
      }
    }
    forall m | m in Consumers(arcs) ensures m in Consumers(arcs') {
      var i :| 0 <= i < |arcs| && arcs[i].to.Some? && arcs[i].to.value == m;
      assert arcs'[i] == arcs[i];
    }
    assert arcs'[|arcs|] == a;
  }

  /** Every arc listed out of n has n as its producer. */
  lemma {:induction false} FromProducer<N>(arcs: seq<Arc<N>>, n: N)
    ensures forall a :: a in From(arcs, n) ==> a.from == n
    decreases |arcs|
  {
    if arcs != [] {
      FromProducer(arcs[..|arcs| - 1], n);
    }
  }
}
