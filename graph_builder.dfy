/**
 * graph/builder.go: a topology recorded as the list of its arcs, in the order they were
 * connected.  A node is any value of the type parameter N; `show` is its String method,
 * which `%v` uses when an arc is printed.
 */
module GraphBuilder {
  import opened Outcomes

  /** An arch: its producer and its consumer, which is nil until the arc is connected. */
  datatype Arc<N> = Arc(from: N, to: Option<N>)

  /** NewArch: an arc out of `from` that has no target yet. */
  function NewArch<N>(from: N): (a: Arc<N>)
    ensures a.from == from && a.to == None
  {
    Arc(from, None)
  }

  /** `%v` of a node, or of the nil interface. */
  function ShowNode<N>(show: N -> string, n: Option<N>): string {
    match n
    case None => "<nil>"
    case Some(v) => show(v)
  }

  /** arch.String: "from -> to". */
  function ArcString<N>(show: N -> string, a: Arc<N>): (s: string)
    ensures |s| >= |show(a.from)| + 4 && s[..|show(a.from)| + 4] == show(a.from) + " -> "
    ensures a.to == None ==> s == show(a.from) + " -> <nil>"
  {
    show(a.from) + " -> " + ShowNode(show, a.to)
  }

  /** What Graph.String writes for the given arcs: one line per arc, each ended by a newline. */
  function Render<N>(show: N -> string, arcs: seq<Arc<N>>): string {
    if arcs == [] then ""
    else Render(show, arcs[..|arcs| - 1]) + (ArcString(show, arcs[|arcs| - 1]) + "\n")
  }

  /** The number of occurrences of c in s. */
  function Count(c: char, s: string): nat {
    if s == [] then 0 else Count(c, s[..|s| - 1]) + (if s[|s| - 1] == c then 1 else 0)
  }

  lemma {:induction false} CountAppend(c: char, s: string, t: string)
    ensures Count(c, s + t) == Count(c, s) + Count(c, t)
    decreases |t|
  {
    if t == [] {
      assert s + t == s;
    } else {
      var t0 := t[..|t| - 1];
      assert (s + t)[..|s + t| - 1] == s + t0;
      CountAppend(c, s, t0);
    }
  }

  /** Printing two runs of arcs is printing them one after the other. */
  lemma {:induction false} RenderAppend<N>(show: N -> string, a: seq<Arc<N>>, b: seq<Arc<N>>)
    ensures Render(show, a + b) == Render(show, a) + Render(show, b)
    decreases |b|
  {
    if b == [] {
      assert a + b == a;
    } else {
      var b0 := b[..|b| - 1];
      assert (a + b)[..|a + b| - 1] == a + b0;
      var last := b[|b| - 1];
      assert (a + b)[|a + b| - 1] == last;
      RenderAppend(show, a, b0);
      var line := ArcString(show, last) + "\n";
      assert Render(show, a + b) == Render(show, a + b0) + line;
      assert Render(show, b) == Render(show, b0) + line;
      ConcatAssoc3(Render(show, a), Render(show, b0), line);
    }
  }

  lemma ConcatAssoc3(x: string, y: string, z: string)
    ensures x + y + z == x + (y + z)
  {
  }

  /** Render of two arcs, unfolded. */
  lemma RenderTwo<N>(show: N -> string, x: Arc<N>, y: Arc<N>)
    ensures Render(show, [x, y]) == ArcString(show, x) + "\n" + ArcString(show, y) + "\n"
  {
    assert [x, y][..1] == [x];
    assert [x][..0] == [];
    assert Render(show, [x]) == ArcString(show, x) + "\n";
  }

  /**
   * When no node prints a newline, the printout has exactly one line per arc: as many
   * newlines as arcs.
   */
  lemma {:induction false} RenderLines<N>(show: N -> string, arcs: seq<Arc<N>>)
    requires forall i :: 0 <= i < |arcs| ==> '\n' !in ArcString(show, arcs[i])
    ensures Count('\n', Render(show, arcs)) == |arcs|
    decreases |arcs|
  {
    if arcs != [] {
      var init := arcs[..|arcs| - 1];
      var line := ArcString(show, arcs[|arcs| - 1]);
      RenderLines(show, init);
      CountAppend('\n', Render(show, init), line + "\n");
      CountAppend('\n', line, "\n");
      CountNone('\n', line);
      assert Count('\n', "\n") == 1 by {
        assert "\n"[..0] == "";
      }
    }
  }

  lemma {:induction false} CountNone(c: char, s: string)
    requires c !in s
    ensures Count(c, s) == 0
    decreases |s|
  {
    if s != [] {
      assert s[|s| - 1] in s;
      CountNone(c, s[..|s| - 1]);
    }
  }

  class Graph<N> {
    var arches: seq<Arc<N>>

    /** Context: the graph a fresh context holds, which has no arcs. */
    constructor Context()
      ensures arches == []
    {
      arches := [];
    }

    /** Walk: the visitor is called on every arc once, in connection order. */
    method Walk() returns (visited: seq<Arc<N>>)
      ensures visited == arches
    {
      visited := [];
      var i := 0;
      while i < |arches|
        invariant 0 <= i <= |arches|
        invariant visited == arches[..i]
      {
        visited := visited + [arches[i]];
        i := i + 1;
      }
    }

    /** Graph.String: the lines of the arcs, in the order Walk visits them. */
    method String(show: N -> string) returns (s: string)
      ensures s == Render(show, arches)
    {
      var visited := Walk();
      s := "";
      var i := 0;
      while i < |visited|
        invariant 0 <= i <= |visited|
        invariant s == Render(show, visited[..i])
      {
        assert visited[..i + 1][..i] == visited[..i];
        s := s + (ArcString(show, visited[i]) + "\n");
        i := i + 1;
      }
      assert visited[..i] == visited;
    }

    /**
     * arch.Connect: one new arc from the receiver's producer to `node` is added at the end
     * of the list, and `node` is returned for chaining.  The receiver is a value here and
     * stays as it was: connecting one arc twice records two arcs.
     */
    method Connect(a: Arc<N>, node: N) returns (r: N)
      modifies this
      ensures arches == old(arches) + [Arc(a.from, Some(node))]
      ensures r == node
    {
      arches := arches + [Arc(a.from, Some(node))];
      r := node;
    }
  }

  /** The node of graph_test.go: its String method prints "test node " and its ID. */
  datatype TestNode = TestNode(id: string)

  function ShowTest(n: TestNode): string {
    "test node " + n.id
  }

  /**
   * Test_NewGraph: the first recorded arc goes from n1 to n2, and the arc out of n2 has
   * n2 as its producer and no target.
   */
  method NewGraphScenario() returns (first: Arc<TestNode>, out: Arc<TestNode>)
    ensures first == Arc(TestNode(""), Some(TestNode("")))
    ensures out == Arc(TestNode(""), None)
  {
    var g := new Graph<TestNode>.Context();
    var n1, n2 := TestNode(""), TestNode("");
    var to := g.Connect(NewArch(n1), n2);
    out := NewArch(to);
    first := g.arches[0];
  }

  /** The printed lines of the test arcs, as literals. */
  lemma TestLine12()
    ensures ArcString(ShowTest, Arc(TestNode("1"), Some(TestNode("2")))) + "\n" == "test node 1 -> test node 2\n"
  {
    assert ArcString(ShowTest, Arc(TestNode("1"), Some(TestNode("2")))) == ("test node " + "1") + " -> " + ("test node " + "2");
  }

  lemma TestLine23()
    ensures ArcString(ShowTest, Arc(TestNode("2"), Some(TestNode("3")))) + "\n" == "test node 2 -> test node 3\n"
  {
    assert ArcString(ShowTest, Arc(TestNode("2"), Some(TestNode("3")))) == ("test node " + "2") + " -> " + ("test node " + "3");
  }

  lemma TestLine13()
    ensures ArcString(ShowTest, Arc(TestNode("1"), Some(TestNode("3")))) + "\n" == "test node 1 -> test node 3\n"
  {
    assert ArcString(ShowTest, Arc(TestNode("1"), Some(TestNode("3")))) == ("test node " + "1") + " -> " + ("test node " + "3");
  }

  lemma TestStringLines(s: string, t: string)
    requires s == "test node 1 -> test node 2\n" && t == "test node 2 -> test node 3\n"
    ensures s + t == "test node 1 -> test node 2\ntest node 2 -> test node 3\n"
  {
  }

  lemma MultipleOutLines(s: string, t: string)
    requires s == "test node 1 -> test node 2\n" && t == "test node 1 -> test node 3\n"
    ensures s + t == "test node 1 -> test node 2\ntest node 1 -> test node 3\n"
  {
  }

  /** Test_String: a chain 1 -> 2 -> 3 prints as two lines, in connection order. */
  method StringScenario() returns (s: string)
    ensures s == "test node 1 -> test node 2\ntest node 2 -> test node 3\n"
  {
    var g := new Graph<TestNode>.Context();
    var two := g.Connect(NewArch(TestNode("1")), TestNode("2"));
    var three := g.Connect(NewArch(two), TestNode("3"));
    s := g.String(ShowTest);
    RenderTwo(ShowTest, g.arches[0], g.arches[1]);
    TestLine12();
    TestLine23();
    TestStringLines(ArcString(ShowTest, g.arches[0]) + "\n", ArcString(ShowTest, g.arches[1]) + "\n");
  }

  /** Test_MultipleOut: connecting one arc twice records two arcs out of the same node. */
  method MultipleOutScenario() returns (s: string)
    ensures s == "test node 1 -> test node 2\ntest node 1 -> test node 3\n"
  {
    var g := new Graph<TestNode>.Context();
    var o := NewArch(TestNode("1"));
    var _ := g.Connect(o, TestNode("2"));
    var _ := g.Connect(o, TestNode("3"));
    s := g.String(ShowTest);
    RenderTwo(ShowTest, g.arches[0], g.arches[1]);
    TestLine12();
    TestLine13();
    MultipleOutLines(ArcString(ShowTest, g.arches[0]) + "\n", ArcString(ShowTest, g.arches[1]) + "\n");
  }
}
