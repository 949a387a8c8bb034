/**
 * engine.go, Engine.Execute: the wiring of a graph's arcs into parallel operators, and
 * the joining of their close errors.  The arcs arrive in the order the walk yields them;
 * a node is created the first time an arc names it, and an arc's key selector is the
 * input selector of its target only when that arc is the one that creates the target.
 */
module EngineExecute {
  import opened Outcomes
  import opened Seqs
  import opened EnginePartition
  import opened EngineOperator

  /** An arc as Execute sees it: its producer, its consumer (nil for an open arc), its key selector. */
  datatype Arc<N> = Arc(from: Option<N>, to: Option<N>, ks: Option<Selector>)

  /** What NewParallelOperator is given for a node: its parallelism and its input key selector. */
  datatype OpSpec = OpSpec(par: int, ks: Option<Selector>)

  /** One input stream of a consumer: the consumer and the index of the input among its inputs. */
  datatype StreamRef<N> = StreamRef(consumer: N, index: nat)

  /** The nodes the arcs name, as producer or as consumer. */
  function Nodes<N>(arcs: seq<Arc<N>>): set<N> {
    if arcs == [] then {}
    else
      var a := Last(arcs);
      Nodes(arcs[..|arcs| - 1]) + (if a.from.Some? then {a.from.value} else {}) +
                                  (if a.to.Some? then {a.to.value} else {})
  }

  /** The operator map after n is met: unchanged when n is nil or already has an operator. */
  function Created<N>(ops: map<N, OpSpec>, n: Option<N>, par: N -> int, ks: Option<Selector>): map<N, OpSpec> {
    if n.Some? && n.value !in ops then ops[n.value := OpSpec(par(n.value), ks)] else ops
  }

  /** The operator map after the arcs: producers first, then consumers, arc by arc. */
  function OpsOf<N>(arcs: seq<Arc<N>>, par: N -> int): map<N, OpSpec> {
    if arcs == [] then map[]
    else
      var a := Last(arcs);
      Created(Created(OpsOf(arcs[..|arcs| - 1], par), a.from, par, None), a.to, par, a.ks)
  }

  /** The ins map after the arcs: each complete arc appends its producer to its consumer's list. */
  function InsOf<N>(arcs: seq<Arc<N>>): map<N, seq<N>> {
    if arcs == [] then map[]
    else
      var ins := InsOf(arcs[..|arcs| - 1]);
      var a := Last(arcs);
      if a.from.Some? && a.to.Some? then
        ins[a.to.value := (if a.to.value in ins then ins[a.to.value] else []) + [a.from.value]]
      else ins
  }

  /** The producers of the complete arcs into n, in arc order. */
  ghost function Inputs<N>(arcs: seq<Arc<N>>, n: N): seq<N> {
    if arcs == [] then []
    else
      var a := Last(arcs);
      Inputs(arcs[..|arcs| - 1], n) + (if a.from.Some? && a.to == Some(n) then [a.from.value] else [])
  }

  /**
   * The input key selector n ends up with, read from the first arc that names n: none when
   * that arc has n as its producer, the arc's selector when it has n only as its consumer.
   */
  ghost function FirstKs<N>(arcs: seq<Arc<N>>, n: N): Option<Selector> {
    if arcs == [] then None
    else if arcs[0].from == Some(n) then None
    else if arcs[0].to == Some(n) then arcs[0].ks
    else FirstKs(arcs[1..], n)
  }

  /** The result of the wiring: one operator per node, the ins lists, and the outs lists. */
  datatype Wiring<N> = Wiring(ops: map<N, OpSpec>, ins: map<N, seq<N>>, outs: map<N, seq<StreamRef<N>>>)

  /** The streams out of producer `from`: one per position of `from` in some consumer's ins list. */
  ghost predicate OutsMatch<N>(ins: map<N, seq<N>>, outs: map<N, seq<StreamRef<N>>>)
  {
    (forall c, k :: c in ins && 0 <= k < |ins[c]| ==> ins[c][k] in outs && StreamRef(c, k) in outs[ins[c][k]]) &&
    (forall from, r :: from in outs && r in outs[from] ==>
                         r.consumer in ins && r.index < |ins[r.consumer]| && ins[r.consumer][r.index] == from) &&
    (forall from :: from in outs ==> outs[from] != []) &&
    (forall from, i, j :: from in outs && 0 <= i < j < |outs[from]| ==> outs[from][i] != outs[from][j])
  }

  /**
   * Execute, up to opening the operators: a parallel operator per node, made when an arc
   * first names it (a negative parallelism makes that fatal), the ins lists, then one
   * stream per ins entry registered in its producer's outs, with the consumers taken in
   * whatever order Go's map iteration gives.
   */
  method Wire<N>(arcs: seq<Arc<N>>, par: N -> int) returns (r: Fatal<Wiring<N>>)
    ensures r.Panicked? <==> exists n :: n in Nodes(arcs) && par(n) < 0
    ensures r.Panicked? ==> r.reason == MAKESLICE
    ensures r.Returned? ==> r.value.ops == OpsOf(arcs, par) && r.value.ins == InsOf(arcs) &&
                            OutsMatch(r.value.ins, r.value.outs)
  {
    var ops: map<N, OpSpec> := map[];
    var ins: map<N, seq<N>> := map[];
    for j := 0 to |arcs|
      invariant ops == OpsOf(arcs[..j], par) && ins == InsOf(arcs[..j])
      invariant forall n :: n in Nodes(arcs[..j]) ==> par(n) >= 0
    {
      assert arcs[..j + 1][..j] == arcs[..j] && Last(arcs[..j + 1]) == arcs[j];
      OpsKeys(arcs[..j], par);
      var a := arcs[j];
      if a.from.Some? && a.from.value !in ops {
        if par(a.from.value) < 0 {
          NodesPrefix(arcs, j + 1);
          return Panicked(MAKESLICE);
        }
        ops := ops[a.from.value := OpSpec(par(a.from.value), None)];
      }
      if a.to.Some? && a.to.value !in ops {
        if par(a.to.value) < 0 {
          NodesPrefix(arcs, j + 1);
          return Panicked(MAKESLICE);
        }
        ops := ops[a.to.value := OpSpec(par(a.to.value), a.ks)];
      }
      if a.from.Some? && a.to.Some? {
        var prev := if a.to.value in ins then ins[a.to.value] else [];
        ins := ins[a.to.value := prev + [a.from.value]];
      }
    }
    assert arcs[..|arcs|] == arcs;
    var outs := Outs(ins);
    r := Returned(Wiring(ops, ins, outs));
  }

  /** Every node of a prefix of the arcs is a node of the arcs. */
  lemma {:induction false} NodesPrefix<N>(arcs: seq<Arc<N>>, j: int)
    requires 0 <= j <= |arcs|
    ensures Nodes(arcs[..j]) <= Nodes(arcs)
    decreases |arcs|
  {
    if j < |arcs| {
      assert arcs[..|arcs| - 1][..j] == arcs[..j];
      NodesPrefix(arcs[..|arcs| - 1], j);
    } else {
      assert arcs[..j] == arcs;
    }
  }

  /** The outs lists of the ins map: the consumers in any order, each consumer's inputs in order. */
  method Outs<N>(ins: map<N, seq<N>>) returns (outs: map<N, seq<StreamRef<N>>>)
    ensures OutsMatch(ins, outs)
  {
    outs := map[];
    var remaining := ins.Keys;
    ghost var done: set<N> := {};
    while remaining != {}
      invariant remaining <= ins.Keys && done == ins.Keys - remaining
      invariant OutsDone(ins, done, None, 0, outs)
      decreases |remaining|
    {
      var n :| n in remaining;
      var inputs := ins[n];
      for k := 0 to |inputs|
        invariant OutsDone(ins, done, Some(n), k, outs)
      {
        var from := inputs[k];
        var prev := if from in outs then outs[from] else [];
        OutsAdd(ins, done, n, k, outs);
        outs := outs[from := prev + [StreamRef(n, k)]];
      }
      OutsNext(ins, done, n, outs);
      remaining := remaining - {n};
      done := done + {n};
    }
    assert done == ins.Keys;
    OutsEnd(ins, outs);
  }

  /** A stream (c, k) has been registered: c is done, or c is the current consumer and k < upto. */
  ghost predicate Registered<N>(ins: map<N, seq<N>>, done: set<N>, cur: Option<N>, upto: nat, c: N, k: int) {
    c in ins && 0 <= k < |ins[c]| && (c in done || (cur == Some(c) && k < upto))
  }

  /** The outs lists hold exactly the registered streams, each once, under their producers. */
  ghost predicate OutsDone<N>(ins: map<N, seq<N>>, done: set<N>, cur: Option<N>, upto: nat, outs: map<N, seq<StreamRef<N>>>)
  {
    (cur.Some? ==> cur.value in ins && cur.value !in done && upto <= |ins[cur.value]|) &&
    (forall c, k :: c in ins && 0 <= k < |ins[c]| && Registered(ins, done, cur, upto, c, k) ==>
                      ins[c][k] in outs && StreamRef(c, k) in outs[ins[c][k]]) &&
    (forall from, r :: from in outs && r in outs[from] ==>
                         Registered(ins, done, cur, upto, r.consumer, r.index) && ins[r.consumer][r.index] == from) &&
    (forall from :: from in outs ==> outs[from] != []) &&
    (forall from, i, j :: from in outs && 0 <= i < j < |outs[from]| ==> outs[from][i] != outs[from][j])
  }

  lemma OutsAdd<N>(ins: map<N, seq<N>>, done: set<N>, n: N, k: nat, outs: map<N, seq<StreamRef<N>>>)
    requires OutsDone(ins, done, Some(n), k, outs) && k < |ins[n]|
    ensures var from := ins[n][k];
            var prev := if from in outs then outs[from] else [];
            OutsDone(ins, done, Some(n), k + 1, outs[from := prev + [StreamRef(n, k)]])
  {
    var from := ins[n][k];
    var prev := if from in outs then outs[from] else [];
    var outs' := outs[from := prev + [StreamRef(n, k)]];
    assert !Registered(ins, done, Some(n), k, n, k);
    forall c, m | c in ins && 0 <= m < |ins[c]| && Registered(ins, done, Some(n), k + 1, c, m)
      ensures ins[c][m] in outs' && StreamRef(c, m) in outs'[ins[c][m]]
    {
      if c != n || m != k {
        assert Registered(ins, done, Some(n), k, c, m);
      }
    }
  }

  lemma OutsNext<N>(ins: map<N, seq<N>>, done: set<N>, n: N, outs: map<N, seq<StreamRef<N>>>)
    requires n in ins && OutsDone(ins, done, Some(n), |ins[n]|, outs)
    ensures OutsDone(ins, done + {n}, None, 0, outs)
  {
    forall c, k
      ensures Registered(ins, done, Some(n), |ins[n]|, c, k) == Registered(ins, done + {n}, None, 0, c, k)
    {
    }
  }

  lemma OutsEnd<N>(ins: map<N, seq<N>>, outs: map<N, seq<StreamRef<N>>>)
    requires OutsDone(ins, ins.Keys, None, 0, outs)
    ensures OutsMatch(ins, outs)
  {
    forall c, k
      ensures Registered(ins, ins.Keys, None, 0, c, k) == (c in ins && 0 <= k < |ins[c]|)
    {
    }
  }

  /** Every node named by the arcs has its operator, of the node's parallelism. */
  lemma {:induction false} OpsKeys<N>(arcs: seq<Arc<N>>, par: N -> int)
    ensures OpsOf(arcs, par).Keys == Nodes(arcs)
    ensures forall n :: n in OpsOf(arcs, par) ==> OpsOf(arcs, par)[n].par == par(n)
  {
    if arcs != [] {
      OpsKeys(arcs[..|arcs| - 1], par);
    }
  }

  /**
   * The key selector rule: a node's operator has the selector of the first arc that
   * names it, when that arc names it as consumer only, and no selector otherwise.
   */
  lemma {:induction false} OpsKs<N>(arcs: seq<Arc<N>>, par: N -> int, n: N)
    requires n in Nodes(arcs)
    ensures n in OpsOf(arcs, par) && OpsOf(arcs, par)[n].ks == FirstKs(arcs, n)
  {
    OpsKeys(arcs, par);
    var init, a := arcs[..|arcs| - 1], Last(arcs);
    assert arcs == init + [a];
    OpsKeys(init, par);
    FirstKsSnoc(init, a, n);
    if n in Nodes(init) {
      OpsKs(init, par, n);
    }
  }

  /** Appending an arc changes the first-arc selector only of a node the earlier arcs do not name. */
  lemma {:induction false} FirstKsSnoc<N>(arcs: seq<Arc<N>>, a: Arc<N>, n: N)
    ensures n in Nodes(arcs) ==> FirstKs(arcs + [a], n) == FirstKs(arcs, n)
    ensures n !in Nodes(arcs) ==> FirstKs(arcs + [a], n) == FirstKs([a], n)
    decreases |arcs|
  {
    if arcs != [] {
      assert (arcs + [a])[0] == arcs[0] && (arcs + [a])[1..] == arcs[1..] + [a];
      NodesFront(arcs);
      if arcs[0].from != Some(n) && arcs[0].to != Some(n) {
        FirstKsSnoc(arcs[1..], a, n);
      }
    }
  }

  /** The nodes of the arcs, taken from the front. */
  lemma {:induction false} NodesFront<N>(arcs: seq<Arc<N>>)
    requires arcs != []
    ensures Nodes(arcs) == (if arcs[0].from.Some? then {arcs[0].from.value} else {}) +
                           (if arcs[0].to.Some? then {arcs[0].to.value} else {}) + Nodes(arcs[1..])
    decreases |arcs|
  {
    if |arcs| > 1 {
      var init := arcs[..|arcs| - 1];
      NodesFront(init);
      assert init[0] == arcs[0] && init[1..] == arcs[1..][..|arcs| - 2];
      assert Last(arcs[1..]) == Last(arcs);
    }
  }

  /** The ins map lists, for each consumer, the producers of its complete arcs, in arc order. */
  lemma {:induction false} InsAreInputs<N>(arcs: seq<Arc<N>>, n: N)
    ensures n in InsOf(arcs) <==> Inputs(arcs, n) != []
    ensures n in InsOf(arcs) ==> InsOf(arcs)[n] == Inputs(arcs, n)
  {
    if arcs != [] {
      InsAreInputs(arcs[..|arcs| - 1], n);
    }
  }

  /** The wrapping Execute applies to an operator's close error. */
  function Wrap(e: Option<Error>): (r: Option<Error>)
    ensures r.None? <==> e.None?
  {
    if e.None? then None else Some(Error("error on operator close: " + e.value.msg))
  }

  /** The errors of errs at the keys of order, in that order. */
  function ErrsIn<N>(errs: map<N, Option<Error>>, order: seq<N>): (r: seq<Option<Error>>)
    requires forall i :: 0 <= i < |order| ==> order[i] in errs
    ensures |r| == |order|
  {
    if order == [] then [] else ErrsIn(errs, order[..|order| - 1]) + [errs[Last(order)]]
  }

  /**
   * Execute's error joining: the operators' close errors are taken in map order, which
   * is arbitrary, and the last non-nil one, wrapped, is the result.
   */
  method JoinErrors<N>(errs: map<N, Option<Error>>) returns (werr: Option<Error>, ghost order: seq<N>)
    ensures (forall i :: 0 <= i < |order| ==> order[i] in errs) && |order| == |errs.Keys|
    ensures forall i, j :: 0 <= i < j < |order| ==> order[i] != order[j]
    ensures werr == Wrap(LastError(ErrsIn(errs, order)))
  {
    werr := None;
    order := [];
    var remaining := errs.Keys;
    while remaining != {}
      invariant remaining <= errs.Keys
      invariant forall i :: 0 <= i < |order| ==> order[i] in errs && order[i] !in remaining
      invariant forall i, j :: 0 <= i < j < |order| ==> order[i] != order[j]
      invariant |order| + |remaining| == |errs.Keys|
      invariant werr == Wrap(LastError(ErrsIn(errs, order)))
      decreases |remaining|
    {
      var n :| n in remaining;
      var old_order := order;
      order := order + [n];
      assert order[..|order| - 1] == old_order;
      assert ErrsIn(errs, order)[..|old_order|] == ErrsIn(errs, old_order);
      if errs[n].Some? {
        werr := Some(Error("error on operator close: " + errs[n].value.msg));
      }
      remaining := remaining - {n};
    }
  }

  /** Execute reports an error exactly when some operator's Close did, and it is one of them, wrapped. */
  lemma JoinedError<N>(errs: map<N, Option<Error>>, order: seq<N>)
    requires forall i :: 0 <= i < |order| ==> order[i] in errs
    requires forall n :: n in errs ==> n in order
    ensures Wrap(LastError(ErrsIn(errs, order))).None? <==> forall n :: n in errs ==> errs[n].None?
    ensures Wrap(LastError(ErrsIn(errs, order))).Some? ==>
              exists n :: n in errs && Wrap(errs[n]) == Wrap(LastError(ErrsIn(errs, order)))
  {
    var es := ErrsIn(errs, order);
    ErrsInAt(errs, order);
    if LastError(es).None? {
      forall n | n in errs
        ensures errs[n].None?
      {
        var i :| 0 <= i < |order| && order[i] == n;
        assert es[i] == errs[n];
      }
    } else {
      var i :| 0 <= i < |es| && es[i] == LastError(es);
      assert errs[order[i]] == es[i];
    }
  }

  lemma {:induction false} ErrsInAt<N>(errs: map<N, Option<Error>>, order: seq<N>)
    requires forall i :: 0 <= i < |order| ==> order[i] in errs
    ensures forall i :: 0 <= i < |order| ==> ErrsIn(errs, order)[i] == errs[order[i]]
  {
    if order != [] {
      var init := order[..|order| - 1];
      ErrsInAt(errs, init);
    }
  }
}
