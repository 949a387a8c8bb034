/**
 * window.go: event-time windows.  A FixedWindowManager keeps the windows it has opened
 * in a map from start to window; ForEachWindow opens every slide-aligned window that
 * contains a timestamp and calls back on the stored windows that cover it, and
 * ForEachClosedWindow raises the watermark and removes and fires every window it closes.
 */
module Windows {
  import opened Outcomes
  import opened Values
  import opened ValuesTime
  import opened ValuesChain
  import opened Arithmetic
  import opened Seqs

  /** What a window holds, as a callback sees it. */
  datatype WindowView = WindowView(start: Timestamp, stop: Timestamp, state: Value, elements: seq<TimestampedValue>)

  /** The first error f returns over the elements in order, if any. */
  function FirstError(f: TimestampedValue -> Option<Error>, xs: seq<TimestampedValue>): (r: Option<Error>)
    ensures r.None? <==> forall i :: 0 <= i < |xs| ==> f(xs[i]).None?
    ensures r.Some? ==> exists i :: 0 <= i < |xs| && f(xs[i]) == r && forall j :: 0 <= j < i ==> f(xs[j]).None?
  {
    if xs == [] then None
    else if f(xs[0]).Some? then f(xs[0])
    else
      var r := FirstError(f, xs[1..]);
      assert r.Some? ==> exists i :: 0 <= i < |xs| && f(xs[i]) == r && forall j :: 0 <= j < i ==> f(xs[j]).None? by {
        if r.Some? {
          var i :| 0 <= i < |xs[1..]| && f(xs[1..][i]) == r && forall j :: 0 <= j < i ==> f(xs[1..][j]).None?;
          assert f(xs[i + 1]) == r;
          assert forall j :: 0 <= j < i + 1 ==> f(xs[j]).None? by {
            forall j | 0 <= j < i + 1 ensures f(xs[j]).None? {
              if j > 0 {
                assert xs[j] == xs[1..][j - 1];
              }
            }
          }
        }
      }
      r
  }

  /** The error prefix of windowedNode.Do for a value that has no timestamp. */
  const NOT_TIMESTAMPED: string := "values entering a window should be timestamped, this is not: "

  /** The per-element callback of windowedNode.Do: the node's function, given the window and the value. */
  function PerElement(fn: (WindowView, TimestampedValue) -> Effect, t: TimestampedValue): WindowView -> Effect {
    (w: WindowView) => fn(w, t)
  }

  /** The panic of AddElement on an element outside the window. */
  const OUT_OF_WINDOW: string := "this should never happen"

  class Window {
    const start: Timestamp
    const stop: Timestamp
    var state: Value
    var elements: seq<TimestampedValue>

    /** NewWindow: a window [start, stop) with the given state and no elements. */
    constructor (start: Timestamp, stop: Timestamp, state: Value)
      ensures this.start == start && this.stop == stop && this.state == state && elements == []
    {
      this.start := start;
      this.stop := stop;
      this.state := state;
      elements := [];
    }

    function View(): WindowView
      reads this
    {
      WindowView(start, stop, state, elements)
    }

    /**
     * AddElement: an element whose timestamp lies in [start, stop) is appended last; any
     * other element is a contract violation, which is fatal.
     */
    method AddElement(v: TimestampedValue) returns (r: Fatal<()>)
      modifies this
      ensures state == old(state)
      ensures r.Returned? <==> start <= TimestampOf(v) < stop
      ensures r.Panicked? ==> r.reason == OUT_OF_WINDOW
      ensures r.Returned? ==> elements == old(elements) + [v]
      ensures r.Panicked? ==> elements == old(elements)
    {
      if TimestampOf(v) < start || TimestampOf(v) >= stop {
        return Panicked(OUT_OF_WINDOW);
      }
      elements := elements + [v];
      return Returned(());
    }

    /**
     * What a ForEachWindow callback does to the window it is handed: it sets the state and
     * adds elements through AddElement, in order; the first element outside the window is
     * fatal, and the elements after it are never added.
     */
    method Apply(e: Effect) returns (r: Fatal<()>)
      modifies this
      ensures r.Returned? <==> Admissible(old(View()), e)
      ensures r.Panicked? ==> r.reason == OUT_OF_WINDOW
      ensures View() == Applied(old(View()), e)
    {
      state := e.state;
      ghost var before := elements;
      for i := 0 to |e.add|
        invariant state == e.state && elements == before + e.add[..i]
        invariant forall j :: 0 <= j < i ==> InWindow(start, stop, e.add[j])
      {
        r := AddElement(e.add[i]);
        if r.Panicked? {
          AdmittedAt(start, stop, e.add, i);
          return;
        }
        assert e.add[..i + 1] == e.add[..i] + [e.add[i]];
      }
      assert e.add[..|e.add|] == e.add;
      AdmittedAt(start, stop, e.add, |e.add|);
      r := Returned(());
    }

    /** Range: calls f on the elements in insertion order and stops at the first error. */
    method Range(f: TimestampedValue -> Option<Error>) returns (err: Option<Error>)
      ensures err == FirstError(f, elements)
    {
      for i := 0 to |elements|
        invariant FirstError(f, elements) == FirstError(f, elements[i..])
      {
        assert elements[i..][1..] == elements[i + 1..];
        var e := f(elements[i]);
        if e.Some? {
          return e;
        }
      }
      err := None;
    }

    /** IsEmpty holds exactly when the window has no element. */
    predicate IsEmpty()
      reads this
      ensures IsEmpty() <==> |elements| == 0
    {
      |elements| == 0
    }
  }

  /**
   * What a ForEachWindow callback does to the window it is given, and what it returns:
   * the new state, the elements it adds through AddElement in order, what it emits, and
   * its error.
   */
  datatype Effect = Effect(state: Value, add: seq<TimestampedValue>, out: seq<Value>, err: Option<Error>)

  /** What a ForEachClosedWindow callback emits, and what it returns. */
  datatype Fired = Fired(out: seq<Value>, err: Option<Error>)

  /** AddElement accepts v in the window [start, stop). */
  predicate InWindow(start: Timestamp, stop: Timestamp, v: TimestampedValue) {
    start <= TimestampOf(v) < stop
  }

  /** Every element a callback adds lies inside the window, so AddElement never panics. */
  predicate Admissible(w: WindowView, e: Effect) {
    forall i :: 0 <= i < |e.add| ==> InWindow(w.start, w.stop, e.add[i])
  }

  /**
   * The elements AddElement accepts before the first one outside the window: the longest
   * prefix of adds that lies inside it.
   */
  function Admitted(start: Timestamp, stop: Timestamp, adds: seq<TimestampedValue>): (r: seq<TimestampedValue>)
    ensures |r| <= |adds| && r == adds[..|r|]
    ensures forall j :: 0 <= j < |r| ==> InWindow(start, stop, r[j])
    ensures |r| < |adds| ==> !InWindow(start, stop, adds[|r|])
  {
    if adds == [] || !InWindow(start, stop, adds[0]) then []
    else [adds[0]] + Admitted(start, stop, adds[1..])
  }

  /** When the first i elements are inside the window and the next is not (or there is none), Admitted is those i. */
  lemma {:induction false} AdmittedAt(start: Timestamp, stop: Timestamp, adds: seq<TimestampedValue>, i: nat)
    requires i <= |adds| && forall j :: 0 <= j < i ==> InWindow(start, stop, adds[j])
    requires i < |adds| ==> !InWindow(start, stop, adds[i])
    ensures Admitted(start, stop, adds) == adds[..i]
    decreases i
  {
    if i > 0 {
      assert InWindow(start, stop, adds[0]);
      var rest := adds[1..];
      assert forall j :: 0 <= j < i - 1 ==> rest[j] == adds[j + 1];
      AdmittedAt(start, stop, rest, i - 1);
      assert adds[..i] == [adds[0]] + rest[..i - 1];
    }
  }

  /**
   * The window after the effect: its new state, and the elements AddElement accepted
   * appended in order (once one is outside the window AddElement panics, and the state
   * has already been set).
   */
  function Applied(w: WindowView, e: Effect): (r: WindowView)
    ensures r.start == w.start && r.stop == w.stop && r.state == e.state
    ensures Admissible(w, e) ==> r.elements == w.elements + e.add
    ensures !Admissible(w, e) ==> exists i :: 0 <= i < |e.add| && !InWindow(w.start, w.stop, e.add[i]) &&
                                            r.elements == w.elements + e.add[..i]
  {
    var a := Admitted(w.start, w.stop, e.add);
    assert Admissible(w, e) ==> a == e.add by {
      if Admissible(w, e) {
        AdmittedAt(w.start, w.stop, e.add, |e.add|);
        assert e.add[..|e.add|] == e.add;
      }
    }
    assert !Admissible(w, e) ==> |a| < |e.add| && !InWindow(w.start, w.stop, e.add[|a|]);
    WindowView(w.start, w.stop, e.state, w.elements + a)
  }

  /** The starts of the windows of size `size`, aligned on `slide`, that contain ts. */
  function Aligned(size: int, slide: int, ts: Timestamp): (r: set<Timestamp>)
    requires slide > 0
    ensures forall s :: s in r <==> 0 <= s <= ts && ts < s + size && Multiple(s, slide)
  {
    set s | 0 <= s <= ts && ts < s + size && Multiple(s, slide)
  }

  /** Stepping a multiple of slide past the next one crosses exactly one aligned start. */
  lemma AlignedStep(size: int, slide: int, ts: Timestamp, start: Timestamp)
    requires slide > 0 && Multiple(start, slide) && start <= ts
    ensures forall s :: s in Aligned(size, slide, ts) && s < start + slide <==>
                        (s in Aligned(size, slide, ts) && s < start) || (s == start && ts < start + size && start >= 0)
  {
    forall s | s in Aligned(size, slide, ts) && start < s
      ensures s >= start + slide
    {
      MultipleGap(start, s, slide);
    }
  }

  /** The windows after visiting: each visited window has had its callback's effect. */
  function AfterVisit(f: WindowView -> Effect, m: map<Timestamp, WindowView>, visited: seq<Timestamp>): (r: map<Timestamp, WindowView>)
    ensures r.Keys == m.Keys
    ensures forall s :: s in m ==> r[s].start == m[s].start && r[s].stop == m[s].stop
  {
    map s | s in m :: if s in visited then Applied(m[s], f(m[s])) else m[s]
  }

  /** What the callbacks emitted, in visiting order (a start with no window emits nothing). */
  function VisitOut(f: WindowView -> Effect, m: map<Timestamp, WindowView>, visited: seq<Timestamp>): seq<Value> {
    if visited == [] then []
    else VisitOut(f, m, visited[..|visited| - 1]) + (if Last(visited) in m then f(m[Last(visited)]).out else [])
  }

  /** What the close callbacks emitted, in firing order (a start with no window emits nothing). */
  function CloseOut(g: WindowView -> Fired, m: map<Timestamp, WindowView>, fired: seq<Timestamp>): seq<Value> {
    if fired == [] then []
    else CloseOut(g, m, fired[..|fired| - 1]) + (if Last(fired) in m then g(m[Last(fired)]).out else [])
  }

  /** Visiting one more window applies its effect to it and to no other window. */
  lemma AfterVisitStep(f: WindowView -> Effect, m: map<Timestamp, WindowView>, visited: seq<Timestamp>, s: Timestamp)
    requires s in m && s !in visited
    ensures AfterVisit(f, m, visited + [s]) == AfterVisit(f, m, visited)[s := Applied(m[s], f(m[s]))]
  {
    var a, b := AfterVisit(f, m, visited + [s]), AfterVisit(f, m, visited)[s := Applied(m[s], f(m[s]))];
    assert a.Keys == b.Keys;
    forall t | t in a ensures a[t] == b[t] {
      assert t in visited + [s] <==> t in visited || t == s;
    }
  }

  /** The windows of m whose start has not been fired. */
  function Without(m: map<Timestamp, WindowView>, fired: seq<Timestamp>): (r: map<Timestamp, WindowView>)
    ensures forall s :: s in r <==> s in m && s !in fired
    ensures forall s :: s in r ==> r[s] == m[s]
  {
    map s | s in m && s !in fired :: m[s]
  }

  /** Firing one more window removes it, and only it. */
  lemma WithoutStep(m: map<Timestamp, WindowView>, fired: seq<Timestamp>, t: Timestamp)
    ensures Without(m, fired + [t]) == Without(m, fired) - {t}
  {
    var a, b := Without(m, fired + [t]), Without(m, fired) - {t};
    forall s ensures s in a <==> s in b {
      assert s in fired + [t] <==> s in fired || s == t;
    }
    assert a.Keys == b.Keys;
  }

  /** The starts of the stored windows that a watermark closes. */
  function Closed(m: map<Timestamp, WindowView>, wm: Timestamp): (r: set<Timestamp>)
    ensures forall s :: s in r <==> s in m && m[s].stop <= wm
  {
    set s | s in m && m[s].stop <= wm
  }

  predicate Distinct(xs: seq<Timestamp>) {
    forall i, j :: 0 <= i < j < |xs| ==> xs[i] != xs[j]
  }

  /** Appending an element that is not there keeps a sequence free of repetitions. */
  lemma DistinctSnoc(xs: seq<Timestamp>, x: Timestamp)
    requires Distinct(xs) && x !in xs
    ensures Distinct(xs + [x])
  {
  }

  /** The window covers the timestamp: start <= ts < stop. */
  predicate Covers(w: WindowView, ts: Timestamp) {
    w.start <= ts < w.stop
  }

  /** A visit of w by f neither panics nor fails. */
  predicate VisitOk(f: WindowView -> Effect, w: WindowView) {
    Admissible(w, f(w)) && f(w).err.None?
  }

  /** What ForEachWindow returns when the visit of w by f stops it. */
  function VisitResult(f: WindowView -> Effect, w: WindowView): Fatal<Option<Error>> {
    if Admissible(w, f(w)) then Returned(f(w).err) else Panicked(OUT_OF_WINDOW)
  }

  /** Every window of m whose start is in ss is visited without panic or error. */
  predicate AllVisitOk(f: WindowView -> Effect, m: map<Timestamp, WindowView>, ss: set<Timestamp>)
    requires ss <= m.Keys
  {
    forall s :: s in ss ==> VisitOk(f, m[s])
  }

  /**
   * The visit of the windows m at ts, in some map order: `visited` lists, without
   * repetition, windows of m that cover ts; every one but the last was visited without
   * panic or error; the visit ends normally exactly when every covering window was visited
   * without panic or error, and otherwise with what the last visit returned.  `after` is
   * m with the visited windows changed, and `out` what the callbacks emitted.
   */
  ghost predicate Visit(f: WindowView -> Effect, m: map<Timestamp, WindowView>, ts: Timestamp,
                        r: Fatal<Option<Error>>, visited: seq<Timestamp>, out: seq<Value>, after: map<Timestamp, WindowView>)
  {
    Distinct(visited) && (forall s :: s in visited ==> s in m && Covers(m[s], ts)) &&
    (r == Returned(None) <==> forall s :: s in m && Covers(m[s], ts) ==> s in visited && VisitOk(f, m[s])) &&
    (r != Returned(None) ==> visited != [] && Last(visited) in m && r == VisitResult(f, m[Last(visited)]) &&
                             forall s :: s in visited && s != Last(visited) ==> VisitOk(f, m[s])) &&
    after == AfterVisit(f, m, visited) && out == VisitOut(f, m, visited)
  }

  /**
   * The firing of the windows of m that the watermark wm closes, in some map order:
   * `fired` lists closed windows without repetition; every one but the last returned no
   * error; no error is returned exactly when every closed window fired without error, and
   * otherwise the last one's error is.  `after` is m without the fired windows, and `out`
   * what the close callbacks emitted.
   */
  ghost predicate Fire(g: WindowView -> Fired, m: map<Timestamp, WindowView>, wm: Timestamp,
                       err: Option<Error>, fired: seq<Timestamp>, out: seq<Value>, after: map<Timestamp, WindowView>)
  {
    Distinct(fired) && (forall s :: s in fired ==> s in Closed(m, wm)) &&
    (err.None? <==> forall s :: s in Closed(m, wm) ==> s in fired && g(m[s]).err.None?) &&
    (err.Some? ==> fired != [] && Last(fired) in m && err == g(m[Last(fired)]).err &&
                   forall s :: s in fired && s != Last(fired) ==> g(m[s]).err.None?) &&
    after == Without(m, fired) && out == CloseOut(g, m, fired)
  }

  /** A visit that stopped at its last window, the first to panic or fail. */
  lemma VisitStopped(f: WindowView -> Effect, m: map<Timestamp, WindowView>, ts: Timestamp,
                     visited: seq<Timestamp>, out: seq<Value>, after: map<Timestamp, WindowView>)
    requires Distinct(visited) && forall s :: s in visited ==> s in m && Covers(m[s], ts)
    requires visited != [] && Last(visited) in m && !VisitOk(f, m[Last(visited)])
    requires forall s :: s in visited && s != Last(visited) ==> VisitOk(f, m[s])
    requires after == AfterVisit(f, m, visited) && out == VisitOut(f, m, visited)
    ensures Visit(f, m, ts, VisitResult(f, m[Last(visited)]), visited, out, after)
  {
    var last := Last(visited);
    assert last in visited && last in m && Covers(m[last], ts) && !VisitOk(f, m[last]);
    assert VisitResult(f, m[last]) != Returned(None);
  }

  /** A firing that stopped at its last window, the first to return an error. */
  lemma FireStopped(g: WindowView -> Fired, m: map<Timestamp, WindowView>, wm: Timestamp,
                    fired: seq<Timestamp>, out: seq<Value>, after: map<Timestamp, WindowView>)
    requires Distinct(fired) && forall s :: s in fired ==> s in m && s in Closed(m, wm)
    requires fired != [] && Last(fired) in m && g(m[Last(fired)]).err.Some?
    requires forall s :: s in fired && s != Last(fired) ==> g(m[s]).err.None?
    requires after == Without(m, fired) && out == CloseOut(g, m, fired)
    ensures Fire(g, m, wm, g(m[Last(fired)]).err, fired, out, after)
  {
    var last := Last(fired);
    assert last in fired && last in Closed(m, wm) && g(m[last]).err.Some?;
  }

  /**
   * When the covering windows of m are those with a start in ss, a visit ends normally
   * exactly when every one of them is visited without panic or error.
   */
  lemma VisitAllOk(f: WindowView -> Effect, m: map<Timestamp, WindowView>, ts: Timestamp, ss: set<Timestamp>,
                   r: Fatal<Option<Error>>, visited: seq<Timestamp>, out: seq<Value>, after: map<Timestamp, WindowView>)
    requires Visit(f, m, ts, r, visited, out, after)
    requires ss <= m.Keys && forall s :: s in m ==> (Covers(m[s], ts) <==> s in ss)
    ensures r == Returned(None) <==> AllVisitOk(f, m, ss)
  {
    if r != Returned(None) {
      var last := Last(visited);
      assert last in visited && last in ss && !VisitOk(f, m[last]);
    }
  }

  /** After a firing that returned no error, every window left is still open at wm. */
  lemma FireLeavesOpen(g: WindowView -> Fired, m: map<Timestamp, WindowView>, wm: Timestamp,
                       fired: seq<Timestamp>, out: seq<Value>, after: map<Timestamp, WindowView>)
    requires Fire(g, m, wm, None, fired, out, after)
    ensures forall s :: s in after ==> after[s].stop > wm
  {
    forall s | s in after ensures after[s].stop > wm {
      assert s in m && s !in fired && after[s] == m[s];
      assert s !in Closed(m, wm);
    }
  }

  /**
   * A visit that ended normally changed exactly the covering windows: each got its
   * callback's effect, so the elements added by the callback are appended, in order,
   * after the ones the window already held; every other window is as it was.
   */
  lemma VisitAccumulates(f: WindowView -> Effect, m: map<Timestamp, WindowView>, ts: Timestamp,
                         visited: seq<Timestamp>, out: seq<Value>, after: map<Timestamp, WindowView>)
    requires Visit(f, m, ts, Returned(None), visited, out, after)
    ensures after.Keys == m.Keys
    ensures forall s :: s in m && Covers(m[s], ts) ==>
                        after[s].state == f(m[s]).state &&
                        after[s].elements == m[s].elements + f(m[s]).add
    ensures forall s :: s in m && !Covers(m[s], ts) ==> after[s] == m[s]
  {
    forall s | s in m && Covers(m[s], ts)
      ensures after[s] == Applied(m[s], f(m[s])) && Admissible(m[s], f(m[s]))
    {
      assert s in visited && VisitOk(f, m[s]);
    }
    forall s | s in m && !Covers(m[s], ts)
      ensures after[s] == m[s]
    {
      assert s !in visited;
    }
  }

  /** A visit in which no window would panic or fail ends normally. */
  lemma VisitNeverStops(f: WindowView -> Effect, m: map<Timestamp, WindowView>, ts: Timestamp,
                        r: Fatal<Option<Error>>, visited: seq<Timestamp>, out: seq<Value>, after: map<Timestamp, WindowView>)
    requires Visit(f, m, ts, r, visited, out, after)
    requires forall s :: s in m ==> VisitOk(f, m[s])
    ensures r == Returned(None)
  {
  }

  /** A firing at a watermark below every stored window's stop fires nothing and keeps every window. */
  lemma FireNothing(g: WindowView -> Fired, m: map<Timestamp, WindowView>, wm: Timestamp,
                    err: Option<Error>, fired: seq<Timestamp>, out: seq<Value>, after: map<Timestamp, WindowView>)
    requires forall s :: s in m ==> m[s].stop > wm
    requires Fire(g, m, wm, err, fired, out, after)
    ensures err == None && after == m
    ensures forall s :: s !in fired
  {
    assert after.Keys == m.Keys;
  }

  /**
   * The windows of window_test.go: with size 5 and slide 1, ts 7 lies in the windows
   * starting at 3 to 7 and ts 10 in those starting at 6 to 10; tumbling windows of 3 put
   * ts 4 in the one at 3; with size 5 and slide 6, ts 5 lies in no window, ts 46 in the
   * one at 42 and ts 50 in the one at 48.
   */
  lemma AlignedVectors()
    ensures Aligned(5, 1, 7) == {3, 4, 5, 6, 7}
    ensures Aligned(5, 1, 10) == {6, 7, 8, 9, 10}
    ensures Aligned(3, 3, 4) == {3}
    ensures Aligned(5, 6, 5) == {}
    ensures Aligned(5, 6, 46) == {42}
    ensures Aligned(5, 6, 50) == {48}
  {
    forall s | 0 <= s <= 50 ensures Multiple(s, 1) {
      MultipleIsMod(s, 1);
    }
    MultipleIsMod(3, 3);
    MultipleIsMod(42, 6);
    MultipleIsMod(48, 6);
    forall s | 0 <= s <= 5 && 5 < s + 5 ensures !Multiple(s, 6) {
      MultipleIsMod(s, 6);
    }
    forall s | 0 <= s <= 46 && 46 < s + 5 && s != 42 ensures !Multiple(s, 6) {
      MultipleIsMod(s, 6);
    }
    forall s | 0 <= s <= 50 && 50 < s + 5 && s != 48 ensures !Multiple(s, 6) {
      MultipleIsMod(s, 6);
    }
    forall s | 0 <= s <= 4 && 4 < s + 3 && s != 3 ensures !Multiple(s, 3) {
      MultipleIsMod(s, 3);
    }
  }

  /**
   * The "fire" test of window_test.go: its element callback adds to the window a null int
   * timestamped (and watermarked) at the window's start.
   */
  function AddAtStart(w: WindowView): (e: Effect)
    ensures e.state == w.state && |e.add| == 1 && TimestampOf(e.add[0]) == w.start && e.out == [] && e.err == None
  {
    Effect(w.state, [Value([Timed(w.start, w.start)], Null(Int))], [], None)
  }

  /** Its close callback counts the window's elements; the model emits the count. */
  function CountElements(w: WindowView): (f: Fired)
    ensures f.out == [Value([], Plain(Int, |w.elements|))] && f.err == None
  {
    Fired([Value([], Plain(Int, |w.elements|))], None)
  }

  /** The windows of the "fire" test, by start: each is [s, s + 5) and holds count[s] elements. */
  ghost predicate FireTestShape(m: map<Timestamp, WindowView>, count: map<Timestamp, nat>) {
    m.Keys == count.Keys &&
    forall s :: s in m ==> m[s].start == s && m[s].stop == s + 5 && |m[s].elements| == count[s]
  }

  /** The counts once the windows at the starts exist and each covering ts has one element more. */
  function AddCount(count: map<Timestamp, nat>, starts: set<Timestamp>, ts: Timestamp): (r: map<Timestamp, nat>)
    ensures r.Keys == count.Keys + starts
    ensures forall s :: s in r ==> r[s] == (if s in count then count[s] else 0) + (if s <= ts < s + 5 then 1 else 0)
  {
    map s | s in count.Keys + starts :: (if s in count then count[s] else 0) + (if s <= ts < s + 5 then 1 else 0)
  }

  /** The counts of the windows a watermark leaves open. */
  function DropCount(count: map<Timestamp, nat>, wm: Timestamp): (r: map<Timestamp, nat>)
    ensures forall s :: s in r <==> s in count && s + 5 > wm
    ensures forall s :: s in r ==> r[s] == count[s]
  {
    map s | s in count && s + 5 > wm :: count[s]
  }

  /** AddAtStart never panics nor fails on a window that is not empty. */
  lemma AddAtStartOk(w: WindowView)
    requires w.start < w.stop
    ensures VisitOk(AddAtStart, w) && VisitResult(AddAtStart, w) == Returned(None)
  {
    assert InWindow(w.start, w.stop, AddAtStart(w).add[0]);
  }

  /** Opening the (empty) windows aligned at ts keeps the "fire" test's windows as they were. */
  lemma FireTestOpened(m: map<Timestamp, WindowView>, count: map<Timestamp, nat>, state: Value, ts: Timestamp)
    requires FireTestShape(m, count)
    ensures forall s :: s in Opened(5, 6, state, m, ts) ==>
              Opened(5, 6, state, m, ts)[s].start == s && Opened(5, 6, state, m, ts)[s].stop == s + 5 &&
              |Opened(5, 6, state, m, ts)[s].elements| == if s in count then count[s] else 0
  {
    var o := Opened(5, 6, state, m, ts);
    forall s | s in o ensures o[s].start == s && o[s].stop == s + 5 && |o[s].elements| == if s in count then count[s] else 0 {
      if s !in m {
        assert o[s] == NewView(5, state, s);
      }
    }
  }

  /**
   * One ForEachWindow(ts, AddAtStart) of the "fire" test: the windows aligned at ts are
   * opened, the visit ends normally, and each window that covers ts holds one more element.
   */
  lemma FireTestVisit(m: map<Timestamp, WindowView>, count: map<Timestamp, nat>, state: Value, ts: Timestamp,
                      r: Fatal<Option<Error>>, visited: seq<Timestamp>, out: seq<Value>, after: map<Timestamp, WindowView>)
    requires FireTestShape(m, count)
    requires Visit(AddAtStart, Opened(5, 6, state, m, ts), ts, r, visited, out, after)
    ensures r == Returned(None)
    ensures FireTestShape(after, AddCount(count, Aligned(5, 6, ts), ts))
  {
    var o := Opened(5, 6, state, m, ts);
    FireTestOpened(m, count, state, ts);
    forall s | s in o ensures VisitOk(AddAtStart, o[s]) {
      AddAtStartOk(o[s]);
    }
    VisitNeverStops(AddAtStart, o, ts, r, visited, out, after);
    VisitAccumulates(AddAtStart, o, ts, visited, out, after);
    FireTestAdded(o, count, ts, after);
  }

  /** The windows once each covering window of o has had AddAtStart's effect. */
  lemma FireTestAdded(o: map<Timestamp, WindowView>, count: map<Timestamp, nat>, ts: Timestamp, after: map<Timestamp, WindowView>)
    requires o.Keys == count.Keys + Aligned(5, 6, ts)
    requires forall s :: s in o ==> o[s].start == s && o[s].stop == s + 5 && |o[s].elements| == if s in count then count[s] else 0
    requires after.Keys == o.Keys
    requires forall s :: s in o && Covers(o[s], ts) ==> after[s].elements == o[s].elements + AddAtStart(o[s]).add
    requires forall s :: s in o && !Covers(o[s], ts) ==> after[s] == o[s]
    requires forall s :: s in o ==> after[s].start == o[s].start && after[s].stop == o[s].stop
    ensures FireTestShape(after, AddCount(count, Aligned(5, 6, ts), ts))
  {
  }

  /** What CountElements emits over the fired starts: one count per window, in order. */
  lemma {:induction false} FireCounts(m: map<Timestamp, WindowView>, count: map<Timestamp, nat>, fired: seq<Timestamp>)
    requires FireTestShape(m, count) && forall i :: 0 <= i < |fired| ==> fired[i] in m
    ensures |CloseOut(CountElements, m, fired)| == |fired|
    ensures forall i :: 0 <= i < |fired| ==>
              fired[i] in count && CloseOut(CountElements, m, fired)[i] == Value([], Plain(Int, count[fired[i]]))
    decreases |fired|
  {
    if fired != [] {
      var init := fired[..|fired| - 1];
      FireCounts(m, count, init);
      assert Last(fired) == fired[|fired| - 1] && Last(fired) in m;
      assert CloseOut(CountElements, m, fired) == CloseOut(CountElements, m, init) + [Value([], Plain(Int, count[Last(fired)]))];
    }
  }

  /**
   * One ForEachClosedWindow(wm, CountElements) of the "fire" test: no error; the fired
   * windows are the closed ones, each emitting its count; the others stay.
   */
  lemma FireTestClose(m: map<Timestamp, WindowView>, count: map<Timestamp, nat>, wm: Timestamp,
                      err: Option<Error>, fired: seq<Timestamp>, out: seq<Value>, after: map<Timestamp, WindowView>)
    requires FireTestShape(m, count)
    requires Fire(CountElements, m, wm, err, fired, out, after)
    ensures err == None && Distinct(fired)
    ensures forall s :: s in fired <==> s in count && s + 5 <= wm
    ensures |out| == |fired| && forall i :: 0 <= i < |fired| ==> fired[i] in count && out[i] == Value([], Plain(Int, count[fired[i]]))
    ensures FireTestShape(after, DropCount(count, wm))
  {
    assert forall i :: 0 <= i < |fired| ==> fired[i] in m by {
      assert forall i :: 0 <= i < |fired| ==> fired[i] in fired;
    }
    FireCounts(m, count, fired);
  }

  /** A sequence without repetitions whose elements are those of a set has the set's size. */
  lemma {:induction false} DistinctCard(xs: seq<Timestamp>, ss: set<Timestamp>)
    requires Distinct(xs) && forall s :: s in xs <==> s in ss
    ensures |xs| == |ss|
    decreases |xs|
  {
    if xs != [] {
      var init := xs[..|xs| - 1];
      assert xs == init + [Last(xs)] && Last(xs) in xs && Last(xs) in ss;
      assert forall s :: s in init <==> s in ss - {Last(xs)} by {
        assert forall i :: 0 <= i < |init| ==> init[i] == xs[i] && xs[i] != Last(xs);
      }
      DistinctCard(init, ss - {Last(xs)});
      assert |ss| == |ss - {Last(xs)}| + 1;
    } else {
      assert forall s :: s !in ss;
      assert ss == {};
    }
  }

  /** The aligned starts of the "fire" test, with size 5 and slide 6. */
  lemma AlignedFireTest()
    ensures Aligned(5, 6, 0) == {0} && Aligned(5, 6, 2) == {0} && Aligned(5, 6, 3) == {0}
    ensures Aligned(5, 6, 42) == {42} && Aligned(5, 6, 45) == {42}
    ensures Aligned(5, 6, 10) == {6} && Aligned(5, 6, 33) == {30}
  {
    MultipleIsMod(0, 6);
    MultipleIsMod(6, 6);
    MultipleIsMod(30, 6);
    MultipleIsMod(42, 6);
    forall s | 1 <= s <= 3 || (38 <= s <= 45 && s != 42) || 7 <= s <= 10 || (29 <= s <= 33 && s != 30)
      ensures !Multiple(s, 6)
    {
      MultipleIsMod(s, 6);
    }
  }

  /** One ForEachWindow(ts, AddAtStart) of the "fire" test on the manager. */
  method FireTestAdd(manager: FixedWindowManager, ts: Timestamp, ghost count: map<Timestamp, nat>)
    returns (ghost next: map<Timestamp, nat>)
    requires manager.Valid() && manager.size == 5 && manager.slide == 6 && FireTestShape(manager.ws, count)
    modifies manager
    ensures manager.Valid() && manager.wm == old(manager.wm) && FireTestShape(manager.ws, next)
    ensures next == AddCount(count, Aligned(5, 6, ts), ts)
  {
    ghost var before := manager.ws;
    var r, visited, out := manager.ForEachWindow(ts, AddAtStart);
    FireTestVisit(before, count, manager.state, ts, r, visited, out, manager.ws);
    next := AddCount(count, Aligned(5, 6, ts), ts);
  }

  /**
   * One ForEachClosedWindow(wm, CountElements) of the "fire" test on the manager: the
   * recorded watermark becomes the larger of the two, and closes what it closes.
   */
  method FireTestClosed(manager: FixedWindowManager, wm: Timestamp, ghost count: map<Timestamp, nat>)
    returns (fired: seq<Timestamp>, out: seq<Value>, ghost next: map<Timestamp, nat>)
    requires manager.Valid() && FireTestShape(manager.ws, count)
    modifies manager
    ensures manager.Valid() && manager.wm == Max(old(manager.wm), wm)
    ensures FireTestShape(manager.ws, next) && next == DropCount(count, manager.wm)
    ensures Distinct(fired) && forall s :: s in fired <==> s in count && s + 5 <= manager.wm
    ensures |out| == |fired| && forall i :: 0 <= i < |fired| ==> fired[i] in count && out[i] == Value([], Plain(Int, count[fired[i]]))
  {
    ghost var before := manager.ws;
    var err;
    err, fired, out := manager.ForEachClosedWindow(wm, CountElements);
    FireTestClose(before, count, manager.wm, err, fired, out, manager.ws);
    next := DropCount(count, manager.wm);
  }

  /** The first two additions of the "fire" test, at 0 and 42, on a new manager with size 5 and slide 6. */
  method FireTestFirst() returns (manager: FixedWindowManager, ghost count: map<Timestamp, nat>)
    ensures fresh(manager) && manager.Valid() && manager.size == 5 && manager.slide == 6 && manager.wm == -1
    ensures FireTestShape(manager.ws, count) && count.Keys == {0, 42} && count[0] == 1 && count[42] == 1
  {
    AlignedFireTest();
    manager := new FixedWindowManager(5, 6, Value([], Plain(Int, 0)));
    count := FireTestAdd(manager, 0, map[]);
    count := FireTestAdd(manager, 42, count);
  }

  /** The next two additions, at 10 and 2. */
  method FireTestSecond() returns (manager: FixedWindowManager, ghost count: map<Timestamp, nat>)
    ensures fresh(manager) && manager.Valid() && manager.size == 5 && manager.slide == 6 && manager.wm == -1
    ensures FireTestShape(manager.ws, count) && count.Keys == {0, 6, 42} && count[0] == 2 && count[6] == 1 && count[42] == 1
  {
    AlignedFireTest();
    manager, count := FireTestFirst();
    count := FireTestAdd(manager, 10, count);
    count := FireTestAdd(manager, 2, count);
  }

  /** The next two, at 3 and 33. */
  method FireTestThird() returns (manager: FixedWindowManager, ghost count: map<Timestamp, nat>)
    ensures fresh(manager) && manager.Valid() && manager.size == 5 && manager.slide == 6 && manager.wm == -1
    ensures FireTestShape(manager.ws, count)
    ensures count.Keys == {0, 6, 30, 42} && count[0] == 3 && count[6] == 1 && count[30] == 1 && count[42] == 1
  {
    AlignedFireTest();
    manager, count := FireTestSecond();
    count := FireTestAdd(manager, 3, count);
    count := FireTestAdd(manager, 33, count);
  }

  /** The last addition, at 45. */
  method FireTestFill() returns (manager: FixedWindowManager, ghost count: map<Timestamp, nat>)
    ensures fresh(manager) && manager.Valid() && manager.wm == -1 && FireTestShape(manager.ws, count)
    ensures count.Keys == {0, 6, 30, 42} && count[0] == 3 && count[6] == 1 && count[30] == 1 && count[42] == 2
  {
    AlignedFireTest();
    manager, count := FireTestThird();
    count := FireTestAdd(manager, 45, count);
  }

  /** Watermark 10 fires only [0, 5), holding three elements; 7, below the recorded 10, then fires nothing. */
  method FireTestEarly() returns (manager: FixedWindowManager, ghost count: map<Timestamp, nat>, at10: seq<Value>, at7: seq<Value>)
    ensures fresh(manager) && manager.Valid() && manager.wm == 10 && FireTestShape(manager.ws, count)
    ensures count.Keys == {6, 30, 42} && count[6] == 1 && count[30] == 1 && count[42] == 2
    ensures at10 == [Value([], Plain(Int, 3))] && at7 == []
  {
    manager, count := FireTestFill();
    var fired;
    fired, at10, count := FireTestClosed(manager, 10, count);
    DistinctCard(fired, {0});
    fired, at7, count := FireTestClosed(manager, 7, count);
    DistinctCard(fired, {});
  }

  /**
   * The "fire" test: after the seven additions, watermark 10 fires only [0, 5), holding
   * three elements; watermark 7 (below the recorded 10) fires nothing; 46 fires [6, 11)
   * and [30, 35), one element each, in either order; 47 fires [42, 47), holding two.
   */
  method FireScenario() returns (at10: seq<Value>, at7: seq<Value>, at46: seq<Value>, at47: seq<Value>)
    ensures at10 == [Value([], Plain(Int, 3))]
    ensures at7 == []
    ensures at46 == [Value([], Plain(Int, 1)), Value([], Plain(Int, 1))]
    ensures at47 == [Value([], Plain(Int, 2))]
  {
    var manager;
    ghost var count;
    manager, count, at10, at7 := FireTestEarly();
    var fired;
    fired, at46, count := FireTestClosed(manager, 46, count);
    DistinctCard(fired, {6, 30});
    fired, at47, count := FireTestClosed(manager, 47, count);
    DistinctCard(fired, {42});
  }

  function Max(a: int, b: int): int {
    if a >= b then a else b
  }

  /** Every window of m is [s, s + size) for a slide-aligned start s >= 0. */
  ghost predicate AlignedWindows(size: int, slide: int, m: map<Timestamp, WindowView>) {
    forall s :: s in m ==> m[s].start == s && m[s].stop == s + size && s >= 0 && slide > 0 && Multiple(s, slide)
  }

  /** A window ForEachWindow opens: [s, s + size) over a clone of the initial state. */
  function NewView(size: int, state: Value, s: Timestamp): (r: WindowView)
    ensures r.start == s && r.stop == s + size && r.elements == []
  {
    WindowView(s, s + size, Clone(state), [])
  }

  /** The windows once ForEachWindow(ts) has opened the ones it lacked. */
  function Opened(size: int, slide: int, state: Value, m: map<Timestamp, WindowView>, ts: Timestamp): (r: map<Timestamp, WindowView>)
    requires slide > 0
    ensures r.Keys == m.Keys + Aligned(size, slide, ts)
    ensures forall s :: s in m ==> r[s] == m[s]
  {
    map s | s in m.Keys + Aligned(size, slide, ts) :: if s in m then m[s] else NewView(size, state, s)
  }

  /**
   * Opening keeps the windows aligned, and among the opened windows those that cover ts
   * are exactly the aligned starts: ForEachWindow visits every window that contains ts.
   */
  lemma OpenedCovers(size: int, slide: int, state: Value, m: map<Timestamp, WindowView>, ts: Timestamp)
    requires slide > 0 && AlignedWindows(size, slide, m)
    ensures AlignedWindows(size, slide, Opened(size, slide, state, m, ts))
    ensures forall s :: s in Opened(size, slide, state, m, ts) ==>
                        (Covers(Opened(size, slide, state, m, ts)[s], ts) <==> s in Aligned(size, slide, ts))
  {
    var o := Opened(size, slide, state, m, ts);
    forall s | s in o
      ensures o[s].start == s && o[s].stop == s + size && s >= 0 && Multiple(s, slide)
    {
      if s !in m {
        assert s in Aligned(size, slide, ts);
      }
    }
  }

  /**
   * Part way through a visit: the starts still to look at are todo; every covering window
   * not in todo has been visited, without panic or error, and no other window has.
   */
  ghost predicate VisitInv(f: WindowView -> Effect, m: map<Timestamp, WindowView>, ts: Timestamp, todo: set<Timestamp>,
                           visited: seq<Timestamp>, out: seq<Value>, after: map<Timestamp, WindowView>)
  {
    todo <= m.Keys && Distinct(visited) &&
    (forall s :: s in visited ==> s in m && Covers(m[s], ts) && s !in todo && VisitOk(f, m[s])) &&
    (forall s :: s in m && s !in todo && Covers(m[s], ts) ==> s in visited) &&
    after == AfterVisit(f, m, visited) && out == VisitOut(f, m, visited)
  }

  /** Passing over a window that does not cover ts. */
  lemma VisitSkip(f: WindowView -> Effect, m: map<Timestamp, WindowView>, ts: Timestamp, todo: set<Timestamp>,
                  visited: seq<Timestamp>, out: seq<Value>, after: map<Timestamp, WindowView>, s: Timestamp)
    requires VisitInv(f, m, ts, todo, visited, out, after) && s in todo && !Covers(m[s], ts)
    ensures VisitInv(f, m, ts, todo - {s}, visited, out, after)
  {
  }

  /**
   * Visiting a covering window: the visit goes on when the callback neither panics nor
   * fails, and otherwise it is over, with what that callback returned.
   */
  lemma VisitStep(f: WindowView -> Effect, m: map<Timestamp, WindowView>, ts: Timestamp, todo: set<Timestamp>,
                  visited: seq<Timestamp>, out: seq<Value>, after: map<Timestamp, WindowView>, s: Timestamp)
    requires VisitInv(f, m, ts, todo, visited, out, after) && s in todo && Covers(m[s], ts)
    ensures VisitOk(f, m[s]) ==>
              VisitInv(f, m, ts, todo - {s}, visited + [s], out + f(m[s]).out, after[s := Applied(m[s], f(m[s]))])
    ensures !VisitOk(f, m[s]) ==>
              Visit(f, m, ts, VisitResult(f, m[s]), visited + [s], out + f(m[s]).out, after[s := Applied(m[s], f(m[s]))])
  {
    DistinctSnoc(visited, s);
    AfterVisitStep(f, m, visited, s);
    var v := visited + [s];
    assert v[..|visited|] == visited && Last(v) == s;
    if !VisitOk(f, m[s]) {
      VisitStopped(f, m, ts, v, out + f(m[s]).out, after[s := Applied(m[s], f(m[s]))]);
    }
  }

  /** A visit with nothing left to look at went through every covering window. */
  lemma VisitDone(f: WindowView -> Effect, m: map<Timestamp, WindowView>, ts: Timestamp,
                  visited: seq<Timestamp>, out: seq<Value>, after: map<Timestamp, WindowView>)
    requires VisitInv(f, m, ts, {}, visited, out, after)
    ensures Visit(f, m, ts, Returned(None), visited, out, after)
  {
  }

  /**
   * The visiting loop of ForEachWindow: over the windows of m in map order (any order),
   * f is called on each window that covers ts, and the first error or panic stops it.
   */
  method VisitWindows(m: map<Timestamp, WindowView>, ts: Timestamp, f: WindowView -> Effect)
    returns (r: Fatal<Option<Error>>, visited: seq<Timestamp>, out: seq<Value>, after: map<Timestamp, WindowView>)
    ensures Visit(f, m, ts, r, visited, out, after)
  {
    var todo := m.Keys;
    visited := [];
    out := [];
    after := m;
    while todo != {}
      invariant VisitInv(f, m, ts, todo, visited, out, after)
      decreases |todo|
    {
      ghost var some := Inhabited(todo);
      var s :| s in todo;
      var w := m[s];
      if ts >= w.start && ts < w.stop {
        var e := f(w);
        VisitStep(f, m, ts, todo, visited, out, after, s);
        todo := todo - {s};
        after := after[s := Applied(w, e)];
        visited := visited + [s];
        out := out + e.out;
        if !Admissible(w, e) || e.err.Some? {
          r := if !Admissible(w, e) then Panicked(OUT_OF_WINDOW) else Returned(e.err);
          return;
        }
      } else {
        VisitSkip(f, m, ts, todo, visited, out, after, s);
        todo := todo - {s};
      }
    }
    VisitDone(f, m, ts, visited, out, after);
    r := Returned(None);
  }

  /**
   * Part way through a firing: the starts still to look at are todo; every closed window
   * not in todo has been fired without error, and deleted, and no other window has.
   */
  ghost predicate FireInv(g: WindowView -> Fired, m: map<Timestamp, WindowView>, wm: Timestamp, todo: set<Timestamp>,
                          fired: seq<Timestamp>, out: seq<Value>, after: map<Timestamp, WindowView>)
  {
    todo <= m.Keys && Distinct(fired) &&
    (forall s :: s in fired ==> s in m && s in Closed(m, wm) && s !in todo && g(m[s]).err.None?) &&
    (forall s :: s in Closed(m, wm) && s !in todo ==> s in fired) &&
    after == Without(m, fired) && out == CloseOut(g, m, fired)
  }

  /** Passing over a window that the watermark does not close. */
  lemma FireSkip(g: WindowView -> Fired, m: map<Timestamp, WindowView>, wm: Timestamp, todo: set<Timestamp>,
                 fired: seq<Timestamp>, out: seq<Value>, after: map<Timestamp, WindowView>, t: Timestamp)
    requires FireInv(g, m, wm, todo, fired, out, after) && t in todo && wm < m[t].stop
    ensures FireInv(g, m, wm, todo - {t}, fired, out, after)
  {
  }

  /**
   * Firing a closed window: the firing goes on when the callback returns no error, and
   * otherwise it is over, with that error.
   */
  lemma FireStep(g: WindowView -> Fired, m: map<Timestamp, WindowView>, wm: Timestamp, todo: set<Timestamp>,
                 fired: seq<Timestamp>, out: seq<Value>, after: map<Timestamp, WindowView>, t: Timestamp)
    requires FireInv(g, m, wm, todo, fired, out, after) && t in todo && wm >= m[t].stop
    ensures g(m[t]).err.None? ==> FireInv(g, m, wm, todo - {t}, fired + [t], out + g(m[t]).out, after - {t})
    ensures g(m[t]).err.Some? ==> Fire(g, m, wm, g(m[t]).err, fired + [t], out + g(m[t]).out, after - {t})
  {
    DistinctSnoc(fired, t);
    WithoutStep(m, fired, t);
    var v := fired + [t];
    assert v[..|fired|] == fired && Last(v) == t;
    if g(m[t]).err.Some? {
      FireStopped(g, m, wm, v, out + g(m[t]).out, after - {t});
    }
  }

  /** A firing with nothing left to look at went through every closed window. */
  lemma FireDone(g: WindowView -> Fired, m: map<Timestamp, WindowView>, wm: Timestamp,
                 fired: seq<Timestamp>, out: seq<Value>, after: map<Timestamp, WindowView>)
    requires FireInv(g, m, wm, {}, fired, out, after)
    ensures Fire(g, m, wm, None, fired, out, after)
  {
  }

  /**
   * The firing loop of ForEachClosedWindow: over the windows of m in map order (any
   * order), each window whose stop is at or below wm is deleted and then fired, and the
   * first error stops it.
   */
  method FireClosed(m: map<Timestamp, WindowView>, wm: Timestamp, g: WindowView -> Fired)
    returns (err: Option<Error>, fired: seq<Timestamp>, out: seq<Value>, after: map<Timestamp, WindowView>)
    ensures Fire(g, m, wm, err, fired, out, after)
  {
    var todo := m.Keys;
    fired := [];
    out := [];
    after := m;
    while todo != {}
      invariant FireInv(g, m, wm, todo, fired, out, after)
      decreases |todo|
    {
      ghost var some := Inhabited(todo);
      var t :| t in todo;
      var w := m[t];
      if wm >= w.stop {
        FireStep(g, m, wm, todo, fired, out, after, t);
        todo := todo - {t};
        after := after - {t};
        fired := fired + [t];
        var e := g(w);
        out := out + e.out;
        if e.err.Some? {
          return e.err, fired, out, after;
        }
      } else {
        FireSkip(g, m, wm, todo, fired, out, after, t);
        todo := todo - {t};
      }
    }
    FireDone(g, m, wm, fired, out, after);
    err := None;
  }

  /**
   * FixedWindowManager: the windows opened so far, by start, and the watermark.  The
   * windows are held here by value: the callbacks return what they do to a window, and
   * the manager stores the result.
   */
  class FixedWindowManager {
    const size: int
    const slide: int
    var ws: map<Timestamp, WindowView>
    const state: Value
    var wm: Timestamp

    ghost predicate Valid()
      reads this
    {
      AlignedWindows(size, slide, ws)
    }

    /** NewFixedWindowManager: no window, and the watermark at -1. */
    constructor (size: int, slide: int, state: Value)
      ensures this.size == size && this.slide == slide && this.state == state
      ensures ws == map[] && wm == -1 && Valid()
    {
      this.size := size;
      this.slide := slide;
      this.state := state;
      ws := map[];
      wm := -1;
    }

    /**
     * The creating half of ForEachWindow: from the first aligned start that FirstStart
     * computes, every start up to ts gets a new window unless one is already stored.  A
     * slide of 0 makes the division that computes the first start panic.
     */
    method OpenWindows(ts: Timestamp) returns (r: Fatal<()>)
      requires Valid() && slide >= 0
      modifies this
      ensures wm == old(wm)
      ensures slide == 0 ==> r == Panicked(DIVIDE_BY_ZERO) && ws == old(ws)
      ensures slide > 0 ==> r == Returned(()) && ws == Opened(size, slide, state, old(ws), ts)
    {
      if slide == 0 {
        return Panicked(DIVIDE_BY_ZERO);
      }
      var start := FirstStart(size, slide, ts);
      ghost var lo := start;
      ghost var ws0 := ws;
      while start <= ts
        invariant wm == old(wm)
        invariant Multiple(start, slide) && start >= lo && lo >= 0
        invariant forall s :: s in ws <==> s in ws0 || (s in Aligned(size, slide, ts) && s < start)
        invariant forall s :: s in ws ==> ws[s] == if s in ws0 then ws0[s] else NewView(size, state, s)
        decreases ts - start
      {
        AlignedStep(size, slide, ts, start);
        if start !in ws {
          ws := ws[start := NewView(size, state, start)];
        }
        MultipleStep(start, slide);
        start := start + slide;
      }
      OpenedFrom(ws, ws0, ts);
      r := Returned(());
    }

    /** A map that holds what Opened(m, ts) holds, pointwise, is Opened(m, ts). */
    lemma OpenedFrom(w: map<Timestamp, WindowView>, m: map<Timestamp, WindowView>, ts: Timestamp)
      requires slide > 0
      requires forall s :: s in w <==> s in m || s in Aligned(size, slide, ts)
      requires forall s :: s in w ==> w[s] == if s in m then m[s] else NewView(size, state, s)
      ensures w == Opened(size, slide, state, m, ts)
    {
      var o := Opened(size, slide, state, m, ts);
      forall s ensures s in w <==> s in o {
        assert s in o <==> s in m.Keys + Aligned(size, slide, ts);
      }
      assert w.Keys == o.Keys;
      forall s | s in w
        ensures w[s] == o[s]
      {
      }
    }

    /**
     * ForEachWindow(ts, f): opens every slide-aligned window that contains ts and is
     * missing, then calls f on each stored window that covers ts, returning the first
     * error.  Windows already stored are reused.  With a slide of 0 the opening panics
     * before any window is touched.
     */
    method ForEachWindow(ts: Timestamp, f: WindowView -> Effect) returns (r: Fatal<Option<Error>>, visited: seq<Timestamp>, out: seq<Value>)
      requires Valid() && slide >= 0
      modifies this
      ensures Valid() && wm == old(wm)
      ensures slide == 0 ==> r == Panicked(DIVIDE_BY_ZERO) && ws == old(ws) && visited == [] && out == []
      ensures slide > 0 ==> Visit(f, Opened(size, slide, state, old(ws), ts), ts, r, visited, out, ws)
    {
      if slide > 0 {
        OpenedCovers(size, slide, state, ws, ts);
      }
      var made := OpenWindows(ts);
      if made.Panicked? {
        return Panicked(made.reason), [], [];
      }
      r, visited, out, ws := VisitWindows(ws, ts, f);
    }

    /**
     * ForEachClosedWindow(wm, g): the recorded watermark becomes the larger of the two;
     * then, over the stored windows in map order (any order), each window whose stop is at
     * or below it is deleted and then fired, and the first error stops the iteration.
     */
    method ForEachClosedWindow(wm: Timestamp, g: WindowView -> Fired) returns (err: Option<Error>, fired: seq<Timestamp>, out: seq<Value>)
      requires Valid()
      modifies this
      ensures Valid() && this.wm == Max(old(this.wm), wm)
      ensures Fire(g, old(ws), this.wm, err, fired, out, ws)
    {
      if wm > this.wm {
        this.wm := wm;
      }
      err, fired, out, ws := FireClosed(ws, this.wm, g);
    }
  }

  /**
   * The first start ForEachWindow creates a window for.  The start is slide times the
   * truncated quotient of ts by slide; it steps back while the window still contains ts,
   * steps forward once, and is clamped at 0.  Every aligned start from there up to ts
   * is one whose window contains ts, and no start below it is.
   */
  method FirstStart(size: int, slide: int, ts: Timestamp) returns (start: int)
    requires slide > 0
    ensures start >= 0 && Multiple(start, slide)
    ensures forall s :: s in Aligned(size, slide, ts) ==> start <= s
    ensures forall s :: start <= s <= ts && Multiple(s, slide) ==> s in Aligned(size, slide, ts)
  {
    start := slide * TruncDiv(ts, slide);
    MultipleOfProduct(slide, TruncDiv(ts, slide));
    ghost var top := start;
    while start + size > ts
      invariant Multiple(start, slide) && start <= top
      invariant forall s :: start < s <= top && Multiple(s, slide) ==> ts < s + size
      decreases start + size - ts
    {
      MultipleStep(start, slide);
      forall s | start - slide < s <= top && Multiple(s, slide) ensures ts < s + size {
        if s < start {
          MultipleGap(s, start, slide);
        }
      }
      start := start - slide;
    }
    ghost var below := start;
    MultipleStep(start, slide);
    start := start + slide;
    if start < 0 {
      start := 0;
    }
    forall s | s in Aligned(size, slide, ts) ensures start <= s {
      if s < start && s > below {
        MultipleGap(below, s, slide);
      }
    }
    if ts >= 0 {
      FloorMultiple(ts, slide);
      forall s | start <= s <= ts && Multiple(s, slide) ensures s in Aligned(size, slide, ts) {
        if s > top {
          MultipleGap(top, s, slide);
        }
      }
    }
  }

  /**
   * windowedNode: a window manager with a per-element callback and a close callback.
   * The per-element callback is given the window and the timestamped value.
   */
  class WindowedNode {
    const size: int
    const slide: int
    const state: Value
    const fn: (WindowView, TimestampedValue) -> Effect
    const closeFn: WindowView -> Fired
    const manager: FixedWindowManager

    ghost predicate Valid()
      reads this, manager
    {
      size > 0 && slide > 0 && manager.Valid() &&
      manager.size == size && manager.slide == slide && manager.state == state
    }

    constructor (size: int, slide: int, state: Value, fn: (WindowView, TimestampedValue) -> Effect, closeFn: WindowView -> Fired)
      requires size > 0 && slide > 0
      ensures Valid() && fresh(manager)
      ensures this.size == size && this.slide == slide && this.state == state
      ensures this.fn == fn && this.closeFn == closeFn
      ensures manager.ws == map[] && manager.wm == -1
    {
      this.size := size;
      this.slide := slide;
      this.state := state;
      this.fn := fn;
      this.closeFn := closeFn;
      manager := new FixedWindowManager(size, slide, state);
    }

    /**
     * Do: a value with no timestamp is refused with an error.  Otherwise the value goes
     * through ForEachWindow at its timestamp; when that succeeds, ForEachClosedWindow
     * runs at its watermark, so the windows the value fills and the windows its
     * watermark closes are handled in the same call.
     */
    method Do(v: Value) returns (r: Fatal<Option<Error>>, visited: seq<Timestamp>, fired: seq<Timestamp>, out: seq<Value>)
      requires Valid()
      modifies manager
      ensures Valid()
      ensures Lookup(v, TimeKind).Err? ==>
                r == Returned(Some(Error(NOT_TIMESTAMPED + Lookup(v, TimeKind).error.msg))) &&
                manager.ws == old(manager.ws) && manager.wm == old(manager.wm) &&
                visited == [] && fired == [] && out == []
      ensures Lookup(v, TimeKind).Ok? ==>
                var t: TimestampedValue := Lookup(v, TimeKind).value;
                var filled := Opened(size, slide, state, old(manager.ws), TimestampOf(t));
                var after := AfterVisit(PerElement(fn, t), filled, visited);
                var r1 := if AllVisitOk(PerElement(fn, t), filled, Aligned(size, slide, TimestampOf(t))) then Returned(None) else r;
                Visit(PerElement(fn, t), filled, TimestampOf(t), r1, visited, VisitOut(PerElement(fn, t), filled, visited), after) &&
                (r1 != Returned(None) ==> manager.ws == after && manager.wm == old(manager.wm) && fired == [] &&
                                          out == VisitOut(PerElement(fn, t), filled, visited)) &&
                (r1 == Returned(None) ==> manager.wm == Max(old(manager.wm), WatermarkOf(t)) && r.Returned? &&
                                          Fire(closeFn, after, manager.wm, r.value, fired, CloseOut(closeFn, after, fired), manager.ws) &&
                                          out == VisitOut(PerElement(fn, t), filled, visited) + CloseOut(closeFn, after, fired))
    {
      var tsv := GetTimestampedValue(v);
      visited, fired, out := [], [], [];
      if tsv.Err? {
        return Returned(Some(Error(NOT_TIMESTAMPED + tsv.error.msg))), visited, fired, out;
      }
      var t := tsv.value;
      var f := PerElement(fn, t);
      ghost var filled := Opened(size, slide, state, manager.ws, TimestampOf(t));
      OpenedCovers(size, slide, state, manager.ws, TimestampOf(t));
      var r1, o1;
      r1, visited, o1 := manager.ForEachWindow(TimestampOf(t), f);
      VisitAllOk(f, filled, TimestampOf(t), Aligned(size, slide, TimestampOf(t)), r1, visited, o1, manager.ws);
      out := o1;
      if r1 != Returned(None) {
        return r1, visited, fired, out;
      }
      var e2, o2;
      e2, fired, o2 := manager.ForEachClosedWindow(WatermarkOf(t), closeFn);
      out := out + o2;
      r := Returned(e2);
    }

    /** Clone: a node with the same parameters and callbacks, over a fresh, empty manager. */
    method Clone() returns (c: WindowedNode)
      requires Valid()
      ensures fresh(c) && fresh(c.manager) && c.Valid()
      ensures c.size == size && c.slide == slide && c.state == state && c.fn == fn && c.closeFn == closeFn
      ensures c.manager.ws == map[] && c.manager.wm == -1
    {
      c := new WindowedNode(size, slide, state, fn, closeFn);
    }
  }

  /** NewWindowedNode: a size or a slide that is not positive is fatal. */
  method NewWindowedNode(size: int, slide: int, state: Value, fn: (WindowView, TimestampedValue) -> Effect, closeFn: WindowView -> Fired)
    returns (r: Fatal<WindowedNode>)
    ensures r.Returned? <==> size > 0 && slide > 0
    ensures r.Returned? ==> fresh(r.value) && fresh(r.value.manager) && r.value.Valid() &&
                            r.value.manager.ws == map[] && r.value.manager.wm == -1
  {
    if size <= 0 || slide <= 0 {
      return Panicked("size and slide must be greater than 0");
    }
    var n := new WindowedNode(size, slide, state, fn, closeFn);
    return Returned(n);
  }
}
