# ssp in Dafny

This project models the core of `ssp`, a small stream-processing library written in Go.
A topology is a graph of nodes joined by arcs, and values flow along the arcs.
The model covers these parts of the library:

- **Values.** A base value may be wrapped in decorations: a key, a source index, and a timestamp with a watermark. `SetKey`, `SetSource` and `SetTime` add or overwrite a decoration. `GetKey`, `GetSource` and `GetTime` search down the unwrap chain for one.
- **Meta values and lists.** The close sentinel is a meta value of type `Close`. A list value holds elements of one declared type. Like a meta value, a list can be the base of a decorated value, and every decoration search stops at it.
- **Key selectors.** These decide which replica of an operator receives a value. There are four: the fixed selector, a function selector, the round-robin selector, and the FNV-1a string hash.
- **Streams.**
  - Slice streams read through an index.
  - The buffered channel stream carries values between operators.
  - The merge of several inputs (`dataStreams`) tags each value with its input index and counts close sentinels.
  - The partitioned stream routes each value to a replica by key.
- **Collectors.** Two kinds: shared (which drops the close sentinels of all but the last replica) and broadcast.
- **Operators.**
  - An operator keeps one clone of its node per key.
  - A parallel operator keeps a set of replicas.
  - `Execute` wires operators together from a graph and joins their errors.
- **Graphs.** Two revisions: an arc list (`graph/builder.go`) and an adjacency map with root marks, walked in representation order (`graph/graph.gen.go`). The layered breadth-first walk of `walk.go` is modelled too.
- **Windows.** These are event-time windows: a window manager with a fixed size and slide, and the windowed node built on it.
- **Earlier revisions.**
  - The package-level revision: `values.go`, `stream.go` and `node.go`.
  - The naive sequential executor: `naive/stream.go`, `naive/node.go` and `naive/execute.go`.

The models follow the form of the Go code:

- **Mutable state becomes classes.** Objects whose fields the Go code updates are classes with `modifies` clauses. Examples: streams, selectors, collectors, operators, graphs, window managers and lists.
- **Immutable things become datatypes and functions.** This covers value chains, the selectors without state, FNV-1a and the arc renderings.
- **Loops become methods.** Each loop is a method proved against a specification function. Its partner lemmas state what the source promises.
- **Failures become outcome values.** A `panic` in Go, or a runtime error such as a closed-channel close, an index out of range or a division by zero, is a `Fatal` outcome value. A Go `error` is an `Option<Error>`. A few conditions are preconditions instead: a blocking channel operation, a slice stream attached twice, and a negative window slide. "## Left out" lists each one.
- **Go behaviour is stated explicitly.**
  - Go's integer division truncates, which is written out explicitly.
  - `values.Key` is a `uint64`, so keys are reduced modulo 2^64.
  - The legacy `int64` of `values.go` wraps around explicitly.
  - Other integers are unbounded; "## Left out" says which.

## Model

| member | source | states |
|---|---|---|
| Outcomes.LastError | engine.go:283-291 | the result is nil exactly when every error is nil; otherwise it is the last non-nil one |
| Values.FindLayer | values/key.go:45-56 | finds the outermost wrapper of a kind: no earlier wrapper has that kind, and None means no wrapper has it |
| Values.Lookup | values/key.go:45-56 | the unwrap-chain search succeeds exactly when a wrapper of the kind exists; it returns the chain from that wrapper, else the base value's Unwrap error |
| ValuesKey.GetKeyedValue | values/key.go:45-56 | the loop down the Unwrap chain returns what Lookup specifies |
| ValuesKey.GetKey | values/key.go:58-64 | with no keyed wrapper the result is (0, the base's error); otherwise it is the key of the outermost keyed wrapper and no error |
| ValuesKey.SetKey | values/key.go:36-43 | the base value is kept |
| ValuesKey.UnwrapKeyed | values/key.go:27-29 | keyedValue.Unwrap returns the embedded value |
| ValuesKey.SetKeyRoundTrip | values/key.go:36-64 | GetKey(SetKey(k, v)) is (k, nil) for every value |
| ValuesKey.SetKeyWraps | values/key.go:38-40 | with no keyed wrapper, SetKey adds exactly one outermost wrapper, and unwrapping it gives back v |
| ValuesKey.SetKeyInPlace | values/key.go:41-42 | with a keyed wrapper, SetKey keeps the chain length and every other wrapper, and setting the same key again changes nothing |
| ValuesKey.SetKeyTwice | values/key.go:36-43 | a second SetKey does not grow the chain and its key wins |
| ValuesSource.GetValueWithSource | values/source.go:45-56 | the loop down the Unwrap chain returns what Lookup specifies |
| ValuesSource.GetSource | values/source.go:58-64 | (0, the base's error) without a source wrapper; otherwise the outermost source |
| ValuesSource.SetSource | values/source.go:36-43 | the base value is kept |
| ValuesSource.UnwrapSourced | values/source.go:27-29 | valueWithSource.Unwrap returns the embedded value |
| ValuesSource.SetSourceRoundTrip | values/source.go:36-64 | GetSource(SetSource(s, v)) is (s, nil) for every value |
| ValuesSource.SetSourceWraps | values/source.go:38-40 | with no source wrapper, exactly one outermost wrapper is added, and unwrapping gives v |
| ValuesSource.SetSourceInPlace | values/source.go:41-42 | with a source wrapper, the chain keeps its length and its other wrappers; SetSource is idempotent |
| ValuesSource.SetSourceTwice | values/source.go:36-43 | setting a source twice does not grow the chain and the second source wins |
| ValuesTime.GetTimestampedValue | values/time.go:68-79 | the loop down the Unwrap chain finds the outermost timestamped wrapper, or the base value's error |
| ValuesTime.GetTime | values/time.go:81-87 | (0, 0, the base's error) without a timestamp; otherwise ts and wm of the outermost timestamped wrapper |
| ValuesTime.SetTime | values/time.go:59-66 | the base value is kept |
| ValuesTime.TimestampOfIsGetTime | values/time.go:37-43 | the Timestamp and Watermark a timestamped value carries are the ones GetTime reports, with no error |
| ValuesTime.UnwrapTimed | values/time.go:50-52 | timestampedValue.Unwrap returns the embedded value |
| ValuesTime.SetTimeRoundTrip | values/time.go:59-87 | GetTime(SetTime(ts, wm, v)) is (ts, wm, nil) for every value |
| ValuesTime.SetTimeWraps | values/time.go:61-62 | without a timestamp, exactly one outermost wrapper is added, and unwrapping gives v |
| ValuesTime.SetTimeInPlace | values/time.go:64-65 | with a timestamp, both ts and wm are overwritten in place; the chain keeps its length and other wrappers |
| ValuesTime.SetTimeTwice | values/time.go:45-48 | a second SetTime does not grow the chain, and its ts and wm win |
| ValuesChain.CloneBase | values/meta.go:38-40 | cloning a base value gives an equal base value |
| ValuesChain.Outermost | values/key.go:45-56 | the wrapper found has the kind searched for |
| ValuesChain.OutermostShift | values/key.go:46-55 | a wrapper of another kind does not change which wrapper of a kind is outermost |
| ValuesChain.OutermostReplace | values/key.go:41-42 | overwriting a wrapper in place keeps the outermost wrapper of every other kind |
| ValuesChain.SetKeyKeepsOthers | values/key.go:36-43 | SetKey leaves GetSource and GetTime as they were |
| ValuesChain.SetSourceKeepsOthers | values/source.go:36-43 | SetSource leaves GetKey and GetTime as they were |
| ValuesChain.SetTimeKeepsOthers | values/time.go:59-66 | SetTime leaves GetKey and GetSource as they were |
| ValuesChain.Decorations | values/key.go:58-64 | each getter reads only the outermost wrapper of its kind |
| ValuesChain.LookupOutermost | values/key.go:45-56 | the search fails exactly when there is no wrapper of the kind, and otherwise finds the outermost one |
| ValuesChain.CloneOutermost | values/key.go:31-34 | a clone has the same outermost wrapper of every kind, over the same base |
| ValuesChain.SetLayer | values/key.go:31-34 | the Set step of Clone keeps the base |
| ValuesChain.SetOutermost | values/key.go:36-43 | after a Set, the wrapper it set is the outermost of its kind |
| ValuesChain.SetKeepsOutermost | values/key.go:36-43 | a Set keeps the outermost wrapper of every other kind |
| ValuesChain.CloneKeepsDecorations | values/key.go:31-34 | Clone keeps the key, the source and the time, and the base value |
| ValuesChain.CloneWellFormed | values/time.go:54-57 | on a chain with at most one wrapper of each kind, Clone returns an equal chain |
| ValuesChain.SetKeyWellFormed | values/key.go:36-43 | SetKey keeps a chain to at most one wrapper of each kind |
| ValuesChain.SetSourceWellFormed | values/source.go:36-43 | SetSource keeps a chain to at most one wrapper of each kind |
| ValuesChain.SetTimeWellFormed | values/time.go:59-66 | SetTime keeps a chain to at most one wrapper of each kind |
| ValuesChain.SetWellFormed | values/key.go:36-43 | overwrite-or-wrap keeps a chain to at most one wrapper of each kind |
| ValuesChain.BaseWellFormed | values/meta.go:18-20 | a bare base value is well formed |
| ValuesMeta.NewMeta | values/meta.go:18-36 | the type is t; the value is not null; Unwrap fails with "meta value cannot be unwrapped" |
| ValuesMeta.CloneMeta | values/meta.go:38-40 | the clone is a meta of the same type |
| ValuesMeta.Get | values/meta.go:26-28 | Get on a meta value panics |
| ValuesMeta.Primitive | values/meta.go:42-92 | every primitive accessor on a meta value panics |
| ValuesMeta.SearchStopsAtMeta | values/meta.go:34-36 | a decoration search that reaches a meta value fails with the meta's Unwrap error |
| ValuesMeta.CloseSentinel | values/meta.go:7-10 | the close sentinel is NewMeta(Close), and it is recognised as Close |
| ValuesList.List.constructor | values/list.go:12-14 | NewList: the declared type, and no element |
| ValuesList.List.Type | values/list.go:18-20 | the declared element type |
| ValuesList.List.GetValues | values/list.go:26-28 | the elements in insertion order, each of the list's type |
| ValuesList.List.AddValue | values/list.go:30-36 | a value of another type gives the mismatch error and leaves the list unchanged; a value of the type is appended last |
| ValuesList.List.Clone | values/list.go:38-44 | a fresh list with the same type and the same elements, in order |
| ValuesList.List.AsValue | values/list.go:5 | a list is a value of the package: no wrapper, its declared type, never null, over its elements |
| ValuesList.List.Unwrap | values/list.go:50-52 | Unwrap always fails with "list cannot be unwrapped", the same error as Unwrap of the list as a value |
| ValuesList.SearchStopsAtList | values/list.go:50-52 | a decoration search that reaches a list base fails with the list's Unwrap error |
| ValuesList.List.IsNull | values/list.go:46-48 | a list is never null |
| KeySelectors.FixedGetKey | key.go:19-21 | every value gets key 0 |
| KeySelectors.FnGetKey | key.go:29-31 | the key is exactly f(v) |
| KeySelectors.CounterAfter | key.go:44-51 | the counter is never negative |
| KeySelectors.ModStep | key.go:46-49 | one call on a counter equal to c mod n leaves (c + 1) mod n |
| KeySelectors.CounterIsMod | key.go:44-51 | with n > 0, after c calls the counter is c mod n, within [0, n) |
| KeySelectors.CounterNoWrap | key.go:47-49 | with n <= 0 the counter never wraps: it is c after c calls |
| KeySelectors.RoundRobinKeySelector.constructor | key.go:38-42 | NewRoundRobinKeySelector: the bound n and the counter at 0 |
| KeySelectors.RoundRobinKeySelector.GetKey | key.go:44-51 | the c-th call returns CounterAfter(n, c) as a uint64 and advances the counter, wrapping to 0 at n |
| KeySelectors.RoundRobinKeys | key.go:44-51 | m calls give m keys |
| KeySelectors.RoundRobinKeysAt | key.go:44-51 | the j-th of consecutive calls after c calls returns (c + j) mod n |
| KeySelectors.RoundRobinFair | key.go:44-51 | any n consecutive calls return every key in 0..n-1 exactly once |
| KeySelectors.FnvFoldAppend | key.go:67-68 | hashing a then b is hashing a + b |
| KeySelectors.FnvSnoc | key.go:67-69 | one more byte is one more FNV-1a step |
| KeySelectors.Fnv1a64 | key.go:67-69 | the hash of no bytes is the 64-bit offset basis; otherwise the first FNV-1a step starts from it and the rest follow in order |
| KeySelectors.StringGetKey | key.go:65-70 | the key is the FNV-1a 64 hash of the projected bytes |
| KeySelectors.StringKeyDeterministic | key_test.go:19-23 | equal projections give equal keys |
| KeySelectors.FnvVectors | key.go:67-69 | the FNV-1a 64 hashes of "" and "a" are the published test vectors |
| KeySelectors.FooBarDiffer | key_test.go:14-18 | "foo" and "bar" hash to different keys |
| DataStream.NewIntValues | datastream.go:18-24 | one int64 value per number, same length and order |
| DataStream.SliceStream.constructor | datastream.go:26-30 | NewStreamFromElements: the index at 0 and nothing served yet |
| DataStream.SliceStream.Next | datastream.go:32-39 | the element at the index, which then advances; nil with the index unchanged once all are served; the index stays within [0, len] |
| DataStream.SliceStream.ServedAll | datastream.go:32-39 | once exhausted, the values served are exactly the elements in order |
| DataStream.InfiniteStream.constructor | datastream.go:49-55 | an empty, open channel whose capacity is fixed at defaultBufferSize (1024) |
| DataStream.InfiniteStream.Collect | datastream.go:57-59 | a send appends v at the back of the channel; a send on a closed channel panics |
| DataStream.InfiniteStream.Close | datastream.go:61-64 | the stream is closed afterwards; closing twice panics |
| DataStream.InfiniteStream.Next | datastream.go:66-73 | takes the oldest value; the sentinel is not returned but closes the stream and gives nil; an empty closed channel panics |
| DataStream.CollectThenDrain | datastream_test.go:18-33 | values collected into a new stream come out in the same order |
| DataStream.CloseEndsStream | datastream_test.go:35-59 | the reader gets the values, then nil, and the stream is closed |
| GraphBuilder.RenderAppend | graph/builder.go:26-33 | printing two runs of arcs is printing one after the other |
| GraphBuilder.RenderTwo | graph/builder.go:26-33 | the printout of two arcs is their lines in order |
| GraphBuilder.RenderLines | graph/builder.go:26-33 | when no node prints a newline, the printout has one line per arc |
| GraphBuilder.NewArch | graph/builder.go:70-72 | an arc out of the node with no target |
| GraphBuilder.ArcString | graph/builder.go:92-94 | the line starts with the producer and " -> "; a missing target prints as <nil> |
| GraphBuilder.Graph.Context | graph/builder.go:47-51 | a fresh context holds no arcs |
| GraphBuilder.Graph.Walk | graph/builder.go:20-24 | the visitor gets every arc once, in connection order |
| GraphBuilder.Graph.String | graph/builder.go:26-33 | the concatenated "from -> to" lines of the arcs, in connection order |
| GraphBuilder.Graph.Connect | graph/builder.go:82-90 | exactly one arc (a.from -> node) is appended; the receiver stays unchanged and node is returned |
| GraphBuilder.NewGraphScenario | graph/graph_test.go:22-40 | the first arc goes from n1 to n2, and the arc out of n2 has no target |
| GraphBuilder.TestLine12 | graph/builder.go:92-94 | the line of arc 1 -> 2 |
| GraphBuilder.TestLine23 | graph/builder.go:92-94 | the line of arc 2 -> 3 |
| GraphBuilder.TestLine13 | graph/builder.go:92-94 | the line of arc 1 -> 3 |
| GraphBuilder.StringScenario | graph/graph_test.go:42-54 | a chain 1 -> 2 -> 3 prints as the test's two lines |
| GraphBuilder.MultipleOutScenario | graph/graph_test.go:56-68 | connecting one arc twice gives two lines out of node 1 |
| GraphGen.LessIrreflexive | graph/graph.gen.go:60-62 | no representation orders before itself |
| GraphGen.LessTransitive | graph/graph.gen.go:60-62 | the representation order is transitive |
| GraphGen.LessTotal | graph/graph.gen.go:60-62 | any two distinct representations are ordered |
| GraphGen.Insert | graph/graph.gen.go:39 | inserting adds x to the multiset of nodes |
| GraphGen.InsertSorted | graph/graph.gen.go:39 | inserting into a sorted sequence keeps it sorted |
| GraphGen.SortByRepr | graph/graph.gen.go:50-66 | the result is a permutation of the input, sorted by representation |
| GraphGen.FromElsewhere | graph/graph.gen.go:43-45 | a node that produced no arc has no arcs out |
| GraphGen.FromSnoc | graph/graph.gen.go:26 | an added arc joins its own producer's list, at the end, and no other |
| GraphGen.VisitFromSnoc | graph/graph.gen.go:68-81 | adding an arc adds it once to the enumeration over distinct keys when its producer is among them |
| GraphGen.VisitFromAll | graph/graph.gen.go:68-81 | enumerating distinct keys that cover the producers lists each arc exactly once |
| GraphGen.VisitIsVisitFrom | graph/graph.gen.go:75-80 | the walk over the adjacency map equals the per-producer enumeration of the arcs |
| GraphGen.AddAdjacency | graph/graph.gen.go:26 | appending to the producer's list keeps the adjacency map equal to the arcs grouped by producer |
| GraphGen.AddRoots | graph/graph.gen.go:27-30 | marking the producer root only when absent, and the consumer non-root, keeps the root marks exact |
| GraphGen.RootsAreSources | graph/graph.gen.go:27-30 | the marked nodes are exactly the producers that were never a consumer |
| GraphGen.NewArch | graph/graph.gen.go:130-134 | an arc out of the node with no target and an empty name |
| GraphGen.ArcString | graph/graph.gen.go:155-161 | the line starts with the producer and " -> " and ends with the name and "]"; a missing target prints as <nil> |
| GraphGen.Graph.Adjacents | graph/graph.gen.go:43-45 | n's list in the adjacency map, and nil (empty) for a node with no arcs out |
| GraphGen.Graph.Context | graph/graph.gen.go:104-111 | empty adjacency and root maps |
| GraphGen.Graph.Add | graph/graph.gen.go:25-31 | the new maps after add; the maps stay in step with the arcs added |
| GraphGen.Graph.AdjacentsInOrder | graph/graph.gen.go:43-45 | Adjacents lists exactly the arcs out of n, in connection order |
| GraphGen.Graph.Roots | graph/graph.gen.go:33-41 | each marked node once, sorted by representation: the producers that are no consumer |
| GraphGen.Graph.ProducerList | graph/graph.gen.go:70-73 | every key of the adjacency map once, in arbitrary order |
| GraphGen.Graph.Walk | graph/graph.gen.go:68-81 | producers in representation order, each producer's arcs in order; every arc is visited exactly once |
| GraphGen.Graph.WalkComplete | graph/graph.gen.go:68-81 | the walk enumerates every added arc exactly once |
| GraphGen.Graph.String | graph/graph.gen.go:83-90 | one line per arc, in Walk order; when no line prints a newline of its own, the printout holds exactly as many lines as the graph has arcs |
| GraphGen.RenderLines | graph/graph.gen.go:83-90 | when no node prints a newline, the printout has one line per arc |
| GraphGen.LinesOfArcs | graph/graph.gen.go:83-90 | printing every arc once, in any order, gives as many lines as there are arcs |
| GraphGen.Graph.Connect | graph/graph.gen.go:144-153 | one new arc (a.from -> node, name) is added with add's map updates; the receiver is unchanged and node is returned |
| GraphGen.FromProducer | graph/graph.gen.go:43-45 | every arc listed out of n has n as producer |
| LayeredWalk.TargetsAppend | walk.go:10-11 | the targets of two runs of arcs are concatenated |
| LayeredWalk.ProgressStep | walk.go:5-14 | one more layer of the loop keeps the walk so far a prefix of WalkFrom |
| LayeredWalk.ExpandLayer | walk.go:6-13 | each node's arcs go to the callback in order; their targets form the next layer |
| LayeredWalk.VisitArcs | walk.go:8-11 | the arcs of one node go to the callback in order, and their targets, when present, are appended to the next layer |
| LayeredWalk.Walk | walk.go:3-16 | the first layer is Roots; the callback gets exactly the arcs WalkFrom gives, to an empty layer or the fuel bound |
| LayeredWalk.ExpandedPerAppearance | walk.go:7-12 | with no visited set, an arc is expanded once per appearance of its producer in the layer |
| LayeredWalk.ValidListsUnderProducer | graph/graph.gen.go:26 | every arc is listed under its producer |
| LayeredWalk.InVisit | walk.go:8-9 | an arc of a layer node is passed to the callback |
| LayeredWalk.InTargets | walk.go:10-11 | an arc's target is in the next layer |
| LayeredWalk.WalkDivergesOnCycle | walk.go:5 | a walk that reaches a cycle never reaches an empty layer, whatever the fuel |
| LayeredWalk.TargetsRankBelow | walk.go:6-13 | on a ranked graph the next layer ranks lower |
| LayeredWalk.TargetsRank | walk.go:10-11 | every target of a node's arcs ranks below that node |
| LayeredWalk.WalkEndsWhenRanked | walk.go:5-14 | on an acyclic (ranked) graph the walk ends within as many layers as the highest rank |
| EngineCollectors.SharedKeepsData | engine.go:136-144 | a sharedCollector forwards every value that is not a close sentinel, in order |
| EngineCollectors.SharedCloses | engine.go:136-144 | the first p - 1 close sentinels are swallowed and every later one is forwarded |
| EngineCollectors.SharedAppend | engine.go:136-144 | receiving xs then ys: ys meets the counter xs left |
| EngineCollectors.NoCloses | engine.go:136-144 | without close sentinels everything passes and the counter is untouched |
| EngineCollectors.OneRun | engine.go:136-144 | a run of data and one sentinel: the sentinel passes exactly when the counter is at most 1 |
| EngineCollectors.Runs | engine.go:136-144 | while fewer than p replicas have finished, their data passes and no sentinel does |
| EngineCollectors.LastRun | engine.go:136-144 | the last replica contributes its data and then its sentinel |
| EngineCollectors.SharedReplicas | engine.go:269-275 | p replicas each sending data then a sentinel: the downstream collector gets all the data, then one sentinel |
| EngineCollectors.SharedCollector.constructor | engine.go:129-134 | the counter starts at par |
| EngineCollectors.SharedCollector.Collect | engine.go:136-144 | a sentinel decrements the counter and is forwarded only once the counter is no longer positive; other values are forwarded |
| EngineCollectors.BroadcastCollector.constructor | engine.go:151-155 | width collectors, nothing received |
| EngineCollectors.BroadcastCollector.Collect | engine.go:157-161 | v goes to every collector, sentinel included, in slice order |
| EngineMerge.WithSource | engine.go:120 | the tagged value carries source i, unwraps to v, and keeps v's type |
| EngineMerge.TotalCloseStep | engine.go:116-118 | a received value adds one to the sentinel count exactly when it is a sentinel |
| EngineMerge.DataStreams.constructor | engine.go:88-101 | one input per stream; the open count starts at the number of streams |
| EngineMerge.DataStreams.Collect | datastream.go:57-59 | a producer's send on input j |
| EngineMerge.DataStreams.NextAsWritten | engine.go:103-121 | as written: a call once the count is 0 closes every input; if one is already closed this panics, otherwise it returns nil; data comes back tagged with its input |
| EngineMerge.DataStreams.Next | engine.go:103-121 | corrected: once the count is 0 every call returns nil; data comes back tagged with its input; sentinels are never returned |
| EngineMerge.DataStreams.Receive | engine.go:110-119 | a closed input channel is fatal ("unexpected close"); each sentinel lowers the count and selection goes on |
| EngineMerge.DataStreams.Select | engine.go:110 | some ready input is chosen; its oldest value is taken, or !ok when it is closed and empty |
| EngineMerge.DataStreams.CloseInputs | engine.go:105-107 | closes every input; panics exactly when one is already closed |
| EngineMerge.DataStreams.CloseOpenInputs | engine.go:105-107 | every input is closed afterwards |
| EngineMerge.EndTwiceAsWritten | engine_test.go:267-272 | as written, the call after the end panics with "close of closed channel" |
| EngineMerge.EndTwice | engine_test.go:267-272 | corrected, the call after the end returns nil again |
| EngineMerge.TaggedData | engine.go:115-120 | a returned value is not a sentinel, carries its input index, and unwraps to the value received |
| EngineMerge.CloseReceived | engine.go:116-118 | a received sentinel is absorbed |
| EngineMerge.DataReceived | engine.go:120 | a received data value is returned tagged with its input |
| EngineOperator.KeyOfValueIsGetKey | engine.go:207 | the key do uses is GetKey's key |
| EngineOperator.KeyInFinds | engine.go:207 | the key is the one of the outermost keyed wrapper, 0 when there is none |
| EngineOperator.Process | engine.go:202-211 | do's loop reads no more values than the input has |
| EngineOperator.ProcessStops | engine.go:202-211 | the loop stops at the end of input or at the first error or panic |
| EngineOperator.SinkCollectsNothing | engine.go:218-221 | a node without collector collects nothing |
| EngineOperator.ProcessKeys | engine.go:189-194 | a clone exists afterwards exactly for the old keys and the keys of the values read |
| EngineOperator.ProcessAt | engine.go:202-211 | unfolding of the loop at one value |
| EngineOperator.ForKey | engine.go:189-194 | the per-key subsequence is no longer than the input |
| EngineOperator.PerKeyIsolation | engine.go:189-211 | the clone of key k has handled exactly the values keyed k, in order, from the template's state or its earlier clone |
| EngineOperator.ProgressStart | engine.go:202 | the loop invariant holds before the first value is read |
| EngineOperator.ProgressStep | engine.go:202-211 | one more iteration with no error keeps the loop invariant |
| EngineOperator.ProgressHalt | engine.go:208-209 | an error at vs[i] ends the loop with that error |
| EngineOperator.ProgressEnd | engine.go:204-205 | the end of input ends the loop with nil |
| EngineOperator.Operator.constructor | engine.go:173-179 | NewOperator: no clone, no input, no collector |
| EngineOperator.Operator.In | engine.go:181-183 | the input is set, nothing else changes |
| EngineOperator.Operator.Out | engine.go:185-187 | a collector is attached, nothing else changes |
| EngineOperator.Operator.GetNode | engine.go:189-194 | the stored clone for k, made from the template the first time k is seen |
| EngineOperator.Operator.Do | engine.go:196-212 | without input, the template alone handles one null value; with input, the loop of Process |
| EngineOperator.Operator.DoSource | engine.go:197-200 | the template handles NewNull(Int64) once |
| EngineOperator.Operator.DoInput | engine.go:202-211 | clones, collected values and the result are Process's |
| EngineOperator.Operator.Open | engine.go:214-224 | the state AfterOpen describes: do's error recorded, and one sentinel after the output when a collector is attached |
| EngineOperator.Operator.Close | engine.go:226-229 | the recorded error |
| EngineOperator.ParallelOperator.constructor | engine.go:253-259 | the given replicas and selector |
| EngineOperator.ParallelOperator.New | engine.go:248-260 | a negative parallelism panics (makeslice); otherwise par fresh replicas of the node |
| EngineOperator.ParallelOperator.In | engine.go:262-267 | each replica's input is its partition followed by one sentinel; no replica and some input panics |
| EngineOperator.ParallelOperator.Out | engine.go:269-275 | every replica shares one shared collector of count len(ops) over the broadcast |
| EngineOperator.ParallelOperator.Open | engine.go:277-281 | every replica is opened, or the first panic is returned |
| EngineOperator.ParallelOperator.Errs | engine.go:283-291 | one recorded error per replica |
| EngineOperator.ParallelOperator.Close | engine.go:283-291 | the last non-nil error of the replicas |
| EnginePartition.SelectKey | engine.go:323 | the selector's key; the round-robin call is counted |
| EnginePartition.NewKeyedValue | engine.go:324 | v with one new outermost keyed wrapper for k: the base and every other wrapper kept |
| EnginePartition.NewKeyedValueKeys | engine.go:324 | the keyed value carries k, unwraps to v, keeps v's type |
| EnginePartition.Partition | engine.go:325 | the partition is within [0, w) |
| EnginePartition.Keys | engine.go:321-323 | one key per value |
| EnginePartition.KeysAt | engine.go:321-323 | the j-th key is the one given after c + j calls |
| EnginePartition.PartitionedStream.constructor | engine.go:299-314 | par empty partitions; a nil selector becomes a fresh round-robin over par |
| EnginePartition.PartitionedStream.Stream | engine.go:316-318 | the i-th partition's content |
| EnginePartition.PartitionedStream.Do | engine.go:320-332 | each value goes, keyed, to key mod w, in order, then one sentinel to every partition; zero partitions with input panics |
| EnginePartition.PartitionedStream.RouteAll | engine.go:321-328 | each partition receives Route's values |
| EnginePartition.RouteSnoc | engine.go:323-327 | one more value goes, keyed, to its own partition only |
| EnginePartition.RoutedStep | engine.go:323-327 | the loop invariant after one more value |
| EnginePartition.RouteMembers | engine.go:321-328 | every value of partition i is an input value keyed for partition i |
| EnginePartition.RouteComplete | engine.go:321-328 | every input value keyed for partition i reaches it |
| EnginePartition.SumSizesStep | engine.go:321-328 | one more value adds one to exactly one partition |
| EnginePartition.RouteConserves | engine.go:321-328 | the partitions together receive exactly the number of input values |
| EnginePartition.RoundRobinRouting | engine.go:300-302 | with the default round-robin, value j goes to partition (c + j) mod w |
| Arithmetic.TruncRem | engine_test.go:350 | Go's remainder: a equals b times the truncated quotient plus it, and it is the Euclidean one when a >= 0 and b > 0 |
| EnginePartition.ParityOfOdd | engine_test.go:349-351 | the parity key of 3 is 1 and that of -3 is 2^64 - 1, as Go's truncating `%` and its uint64 conversion give |
| EnginePartition.ParityOfNatural | engine_test.go:349-351 | on a non-negative int the parity key is the remainder by 2 |
| EnginePartition.ParityKeysOf | engine_test.go:349-351 | the parity selector keys 1..n as 1, 0, 1, 0, .. |
| EnginePartition.PartitionByParity | engine_test.go:345-407 | partition 0 gets 2, 4, 6, 8, 10 and partition 1 gets 1, 3, 5, 7, 9 |
| EnginePartition.PairStep | engine.go:323-327 | an odd-even pair adds the even value to partition 0 and the odd one to partition 1 |
| EnginePartition.IntsPair | engine_test.go:349-353 | the test input grows two by two: an odd number keyed 1, then an even number keyed 0 |
| EnginePartition.ParityEvens | engine_test.go:356-380 | after 2m ints, partition 0 holds 2, 4, .., 2m |
| EnginePartition.ParityOdds | engine_test.go:382-406 | after 2m ints, partition 1 holds 1, 3, .., 2m - 1 |
| EngineExecute.Wire | engine.go:24-64 | a negative parallelism panics; otherwise one operator per node of the arcs, ins as the arcs give them, and outs matching ins stream for stream |
| EngineExecute.Outs | engine.go:49-60 | one stream per (consumer, input); it is registered under that input's producer |
| EngineExecute.OpsKeys | engine.go:24-40 | one operator per node named by an arc, sized by its parallelism |
| EngineExecute.OpsKs | engine.go:33-39 | a consumer's key selector is the one of the arc through which it was first named |
| EngineExecute.FirstKsSnoc | engine.go:33-39 | a later arc does not change the selector of a node already seen |
| EngineExecute.InsAreInputs | engine.go:41-46 | each consumer's ins list is the producers of its complete arcs, in arc order |
| EngineExecute.Wrap | engine.go:76 | wrapping keeps nil nil and a non-nil error non-nil |
| EngineExecute.ErrsIn | engine.go:74-78 | one error per operator in the order given |
| EngineExecute.JoinErrors | engine.go:73-79 | the wrapped last non-nil Close error over one arbitrary order of the operators |
| EngineExecute.JoinedError | engine.go:73-79 | Execute's error is nil exactly when every Close was nil; otherwise it wraps one of them |
| Windows.FirstError | window.go:40-47 | the first error over the elements, in order |
| Windows.Window.constructor | window.go:16-23 | NewWindow: start, stop, state, no elements |
| Windows.Window.AddElement | window.go:33-38 | an element in [start, stop) is appended last; any other panics and leaves the window unchanged |
| Windows.Window.Apply | window.go:33-38 | a callback's effect: the new state, then its elements passed to AddElement one by one, in order; the first one outside [start, stop) panics, and the ones after it are not added |
| Windows.Admitted | window.go:33-38 | the longest prefix of a callback's elements that lie in [start, stop); the element after it, if any, lies outside |
| Windows.AdmittedAt | window.go:33-38 | when the first i elements lie in the window and the next one does not, exactly those i are admitted |
| Windows.Window.Range | window.go:40-47 | calls f in insertion order and returns the first error |
| Windows.Window.IsEmpty | window.go:49-51 | empty exactly when there is no element |
| Windows.Applied | window.go:33-38 | the window after an effect: the new state, with every element appended in order when all lie in the window, and otherwise the elements before the first one outside |
| Windows.AfterVisit | window.go:103-109 | visiting changes the visited windows' state and elements but never a window's bounds or the set of windows |
| Windows.Aligned | window.go:86-100 | the slide-aligned starts s >= 0 with s <= ts < s + size |
| Windows.AlignedStep | window.go:95 | stepping by slide crosses exactly one aligned start |
| Windows.AfterVisitStep | window.go:103-109 | visiting one more window changes that window only |
| Windows.Without | window.go:123 | firing deletes exactly the fired windows and keeps every other one unchanged |
| Windows.WithoutStep | window.go:123 | firing one more window removes it only |
| Windows.Closed | window.go:122 | the stored windows whose stop is at or below the watermark |
| Windows.VisitStopped | window.go:105-107 | a visit that stopped did so at the first window to fail |
| Windows.FireStopped | window.go:123-126 | a firing that stopped did so at the first error, after deleting that window |
| Windows.VisitAllOk | window.go:103-110 | when no callback fails, every covering window is visited once and the result is nil |
| Windows.FireLeavesOpen | window.go:120-129 | after a firing without error, every window left is open at the watermark |
| Windows.VisitAccumulates | window_test.go:88-110 | every covering window gets its callback's state and all its elements, appended in order; other windows are unchanged |
| Windows.VisitNeverStops | window.go:103-110 | when no callback would panic or fail, the visit returns nil |
| Windows.FireNothing | window_test.go:96-149 | a watermark below every stop fires nothing and keeps every window |
| Windows.AddAtStart | window_test.go:83-87 | the test's callback: one element, timestamped at the window's start, and the state kept |
| Windows.AddAtStartOk | window_test.go:83-87 | that callback neither panics nor fails on a window that is not empty |
| Windows.CountElements | window_test.go:97-110 | the test's close callback emits the number of elements and returns nil |
| Windows.AddCount | window_test.go:88-94 | the count of each window after an addition: the windows now open, with one more element in those that cover ts |
| Windows.DropCount | window_test.go:96-149 | the counts of the windows a watermark leaves open |
| Windows.FireTestOpened | window.go:95-100 | opening windows at ts keeps each stored window's bounds and elements; a new window is empty |
| Windows.FireTestVisit | window_test.go:88-94 | one addition of the test ends normally, and every window covering ts holds one more element |
| Windows.FireTestAdded | window.go:103-110 | the counts after a visit by the test's callback are AddCount's |
| Windows.FireCounts | window.go:120-129 | the counting close callback emits one count per fired window, in firing order |
| Windows.FireTestClose | window_test.go:96-149 | one firing of the test: no error; exactly the windows with stop <= wm fire, each emitting its count; the rest stay |
| Windows.DistinctCard | window.go:120-129 | a firing order without repetitions has as many windows as the closed set |
| Windows.AlignedFireTest | window_test.go:88-94 | with size 5 and slide 6, ts 0, 2 and 3 lie in [0, 5), 10 in [6, 11), 33 in [30, 35), 42 and 45 in [42, 47) |
| Windows.FireTestAdd | window_test.go:88-94 | one ForEachWindow of the test on the manager, with the counts AddCount gives |
| Windows.FireTestClosed | window_test.go:96-149 | one ForEachClosedWindow of the test on the manager: the watermark is the maximum, and the closed windows fire with their counts |
| Windows.FireTestFirst | window_test.go:88-89 | after the additions at 0 and 42, windows [0, 5) and [42, 47) hold one element each |
| Windows.FireTestSecond | window_test.go:90-91 | after those at 10 and 2, [0, 5) holds two elements and [6, 11) one |
| Windows.FireTestThird | window_test.go:92-93 | after those at 3 and 33, [0, 5) holds three and [30, 35) one |
| Windows.FireTestFill | window_test.go:88-94 | after all seven additions, [0, 5) holds three elements, [42, 47) two, and [6, 11) and [30, 35) one each |
| Windows.FireTestEarly | window_test.go:96-116 | watermark 10 fires only [0, 5), which counts 3; watermark 7 then fires nothing |
| Windows.FireScenario | window_test.go:80-149 | the whole test: counts 3 at watermark 10, nothing at 7, 1 and 1 at 46, 2 at 47 |
| Windows.AlignedVectors | window_test.go:40-78 | the test's start sets, such as size 5 / slide 1 at ts 7 gives starts 3..7 and size 5 / slide 6 at ts 5 gives none |
| Windows.NewView | window.go:98 | a new window [s, s + size) over the initial state |
| Windows.Opened | window.go:95-100 | stored windows are kept; the missing aligned ones are added |
| Windows.OpenedCovers | window.go:95-100 | after opening, the windows covering ts are exactly the aligned starts |
| Windows.VisitStep | window.go:104-107 | visiting one covering window keeps the visit invariant |
| Windows.VisitSkip | window.go:104 | skipping a window that does not cover ts keeps the visit invariant |
| Windows.VisitDone | window.go:110 | a finished visit went through every covering window |
| Windows.VisitWindows | window.go:103-110 | the callback runs on the covering windows, each once, in arbitrary order, stopping at the first failure |
| Windows.FireStep | window.go:122-126 | firing one closed window keeps the firing invariant |
| Windows.FireSkip | window.go:121 | skipping a window still open at the watermark keeps the firing invariant |
| Windows.FireDone | window.go:129 | a finished firing went through every closed window |
| Windows.FireClosed | window.go:120-129 | each closed window is deleted then fired, once, in arbitrary order, stopping at the first error |
| Windows.FixedWindowManager.constructor | window.go:72-81 | no window and the watermark at -1 |
| Windows.FixedWindowManager.OpenWindows | window.go:86-100 | the stored windows become Opened: missing aligned windows are created, stored ones reused; a slide of 0 panics with the runtime's divide-by-zero error and changes nothing |
| Windows.FixedWindowManager.OpenedFrom | window.go:95-100 | a map that agrees pointwise with Opened is Opened |
| Windows.FixedWindowManager.ForEachWindow | window.go:83-111 | open the aligned windows, then visit exactly the stored windows covering ts; a slide of 0 panics before any window is touched |
| Windows.FixedWindowManager.ForEachClosedWindow | window.go:113-130 | the watermark becomes the maximum of the old and the new one; the closed windows are fired |
| Windows.FirstStart | window.go:86-94 | the first start is an aligned start >= 0; no aligned start containing ts is below it, and every aligned start from it to ts contains ts |
| Windows.WindowedNode.constructor | window.go:151-159 | the parameters, and a manager that is empty with watermark -1 |
| Windows.WindowedNode.Do | window.go:162-177 | a value with no timestamp gives the error; otherwise windows covering ts are visited, then, if that succeeded, windows closed by the watermark fire |
| Windows.WindowedNode.Clone | window.go:193-203 | same parameters and callbacks, over a fresh empty manager |
| Windows.NewWindowedNode | window.go:147-160 | a size or slide <= 0 panics; otherwise a node with an empty manager |
| LegacyValues.Wrap64 | values.go:98 | the int64 wrap-around: equal to x when it fits, congruent modulo 2^64 |
| LegacyValues.FormatNatRoundTrip | values.go:86-88 | base-10 digits without a leading zero, which read back as n |
| LegacyValues.FormatIntRoundTrip | values.go:86-88 | FormatInt(x, 10) reads back as x, with a minus sign exactly when x < 0 |
| LegacyValues.AssertType | values.go:24-28 | panics exactly when the type differs, with the mismatch message |
| LegacyValues.GetInt | values.go:30-33 | returns exactly the held int64 of an int value; other types panic |
| LegacyValues.GetFloat | values.go:35-38 | always panics: there is no float value |
| LegacyValues.GetBool | values.go:40-43 | always panics: there is no bool value |
| LegacyValues.GetString | values.go:45-48 | always panics: there is no string value |
| LegacyValues.NewValue | values.go:92-110 | nil panics; every signed int width gives an Int value with the number; any other type panics |
| LegacyValues.NewValueGetInt | values.go:92-110 | GetInt undoes NewValue |
| LegacyValues.TypeOf | values.go:54-56 | an int value is of type Int; a null keeps the type it was made with |
| LegacyValues.Get | values.go:58-60 | nil exactly for a null; otherwise the int64 held |
| LegacyValues.IsNull | values.go:62-64 | true exactly when Get returns nil |
| LegacyValues.Show | values.go:66-68 | "nil" for a null; for an int, base-10 digits with an optional leading minus, which read back as the number |
| LegacyValues.NewNull | values.go:112-114 | type t, null, Get nil, prints "nil" |
| LegacyValues.IntValueShows | values.go:70-88 | an int value is non-null, of type Int, holds its number, prints in base 10 |
| LegacyStream.SliceStream.FromElements | stream.go:24-28 | index 0 over the elements |
| LegacyStream.SliceStream.Next | stream.go:34-38 | vs[i] and the index advances; past the end indexing panics |
| LegacyStream.SliceStream.Type | stream.go:40-42 | always Int |
| LegacyStream.EmptyStream.Next | stream.go:56-58 | always panics |
| LegacyStream.EmptyStream.Type | stream.go:60-62 | the constructed type |
| LegacyStream.MoreIsRemaining | stream.go:30-32 | More holds exactly when something is left |
| LegacyStream.TypeOfStream | stream.go:40-62 | Int for a slice stream, the constructed type for an empty one |
| LegacyStream.NextOf | stream.go:34-58 | the first remaining element, or a panic |
| LegacyStream.NewIntValues | stream.go:16-22 | one Int value per int, same length and order |
| LegacyStream.Drain | stream.go:24-38 | a More/Next loop yields exactly the remaining elements, in order |
| LegacyNode.Collector.Collect | node_test.go:16-18 | appends v |
| LegacyNode.Entry | node.go:44-48 | the next element, or a null of the stream's type |
| LegacyNode.Collector.constructor | node_test.go:16-18 | a collector that has received nothing |
| LegacyNode.Rest | node.go:44-46 | at most one element is consumed |
| LegacyNode.Operator.constructor | node.go:26-28 | no stream and no error |
| LegacyNode.Operator.In | node.go:34-39 | appends the stream exactly when fewer than nStreams are attached, otherwise panics with the message |
| LegacyNode.Operator.Do | node.go:41-62 | one entry per stream in order, each stream advanced at most once; if all are null, nil with nothing collected; else do's values and error |
| LegacyNode.Operator.Open | node.go:64-71 | Do's effect, with its error recorded |
| LegacyNode.Operator.Close | node.go:73-76 | the recorded error |
| LegacyNode.ReadRow | node.go:42-49 | the entries row, each stream advanced at most once |
| LegacyNode.ReadOne | node.go:44-48 | slot i gets stream i's entry; no other stream moves |
| LegacyNode.IsStop | node.go:51-57 | the stop flag holds exactly when every entry is null |
| LegacyNode.OperatorScenario | node_test.go:20-45 | a stream holding 1 gives 1, 2, 3, 4 and no error |
| LegacyNode.ExceedScenario | node_test.go:48-62 | the second In on a one-slot operator panics |
| LegacyNode.DoErrorScenario | node_test.go:64-77 | Close returns the callback's error |
| NaiveStream.SliceStream.FromElements | naive/stream.go:18-22 | index 0 over the elements |
| NaiveStream.SliceStream.More | naive/stream.go:24-26 | More holds exactly when something is left |
| NaiveStream.SliceStream.Next | naive/stream.go:28-32 | vs[i] and the index advances; past the end indexing panics |
| NaiveStream.EmptyNext | naive/stream.go:40-42 | the empty stream's Next panics with "next when no more" |
| NaiveStream.MoreOf | naive/stream.go:24-38 | More through the interface; nil panics |
| NaiveStream.NextOf | naive/stream.go:28-42 | the first remaining element, or a panic |
| NaiveStream.NewIntValues | naive/stream.go:10-16 | one Int value per int, same length and order |
| NaiveStream.StreamBuilder.constructor | naive/stream.go:57-59 | a builder over an empty stream |
| NaiveStream.StreamBuilder.Add | naive/stream.go:61-63 | v is appended to the stream |
| NaiveStream.StreamBuilder.AddAll | naive/node.go:60-62 | the values are appended in order |
| NaiveStream.StreamBuilder.Stream | naive/stream.go:65-67 | the builder's own stream, not a copy |
| NaiveStream.BuilderScenario | naive/stream.go:53-67 | the builder's stream yields the added values in Add order |
| NaiveNode.FlatMapOneEach | naive/node.go:56-65 | a one-for-one function maps the inputs in order |
| NaiveNode.Node.NewSource | naive/node.go:15-19 | a source over ds |
| NaiveNode.Node.NewMapper | naive/node.go:42-46 | a mapper with no input |
| NaiveNode.Node.NewSink | naive/node.go:71-73 | a sink with no values |
| NaiveNode.Node.Name | naive/node.go:33-35 | "naive source", "mapper" or "sink" |
| NaiveNode.Node.Out | naive/node.go:75-77 | a sink panics; other nodes return themselves |
| NaiveNode.Node.In | naive/node.go:79-83 | a sink drains the stream into its values in order, panicking on nil; other nodes store the stream |
| NaiveNode.Node.Drain | naive/node.go:80-82 | every remaining value of the stream is appended, in order, to what the sink received, and the stream ends empty |
| NaiveNode.Node.Do | naive/node.go:29-31 | a source returns its stream; a sink returns nil; a mapper returns a fresh stream of FlatMap of its input, or f's first panic |
| NaiveNode.MapAll | naive/node.go:56-65 | the mapper's loop: FlatMap of the input, or the panic |
| NaiveNode.MapSlice | naive/node.go:58-63 | the loop on a slice stream drains it and builds FlatMap |
| NaiveNode.FlatMapSnoc | naive/node.go:59-62 | one more input appends f's values |
| NaiveNode.FlatMapPanics | naive/node.go:59 | a panic of f ends the mapping with that panic |
| NaiveNode.FlatMapStaysPanicked | naive/node.go:59 | further inputs do not change a panic |
| NaiveExecute.LayersFollowArcs | naive/execute.go:15-28 | when the run ends, the nodes that ran are the roots followed by the target of every arc a stream went along |
| NaiveExecute.LayersStep | naive/execute.go:15-28 | one more layer keeps the run so far a prefix of Layers |
| NaiveExecute.RunNode | naive/execute.go:18-25 | one Do, then In of each arc's target in adjacency order; the arcs and targets of the next layer |
| NaiveExecute.Deliver | naive/execute.go:21-25 | the stream goes to each target's In, in order |
| NaiveExecute.RunLayer | naive/execute.go:17-26 | every node of the layer takes its turn: the arcs and targets Visit gives |
| NaiveExecute.Execute | naive/execute.go:9-30 | roots sorted by String; the arcs walk.go visits; the nodes of Layers, unless a node panics |
| NaiveExecute.TargetsCovered | naive/execute.go:22 | every arc target is a node of the graph |
| NaiveExecute.TargetOf | naive/execute.go:21-24 | a target comes from one of the arcs |
| NaiveExecute.ListedAt | naive/execute.go:21 | every visited arc is in some key's adjacency list |
| NaiveExecute.DoubleOfInt | naive/execute_test.go:15-16 | the test's mapper doubles an int |
| NaiveExecute.DoubledInputs | naive/execute_test.go:13-16 | the mapper on 1..5 gives 2, 4, 6, 8, 10 |
| NaiveExecute.BuildPipeline | naive/execute_test.go:11-19 | the test graph: source -> mapper -> sink |
| NaiveExecute.PipelineCovered | naive/execute_test.go:11-19 | the test graph covers its three nodes |
| NaiveExecute.PipelineRoots | naive/execute.go:11-14 | the source is the only root |
| NaiveExecute.PipelineVisits | naive/execute.go:21-24 | layer by layer the test graph visits the source's arc, then the mapper's, then none |
| NaiveExecute.PipelineArcs | naive/execute.go:15-28 | the walk of the test graph is its two arcs, and it ends |
| NaiveExecute.PipelineLayers | naive/execute.go:15-28 | the layers run the source, the mapper, then the sink |
| NaiveExecute.PipelineWalk | naive/execute_test.go:21-23 | Execute on the test graph runs source, mapper and sink in order, one stream per arc |
| NaiveExecute.PipelineMapped | naive/execute_test.go:11-31 | the mapper's output stream holds 2, 4, 6, 8, 10, and the sink has received nothing yet |
| NaiveExecute.PipelineData | naive/execute_test.go:25-31 | the sink ends holding 2, 4, 6, 8, 10 |

## Left out

- Concurrency is not modelled: no goroutines, `sync.WaitGroup`, atomic counters or `reflect.Select`. Each step runs in sequence. `Open` runs `do` to its end in place, and `Close` reads the recorded error.
- Blocking is not modelled. A full channel blocking a send becomes the precondition of `Collect`. An empty, open channel blocking a receive becomes the precondition of `Next`. The merge's choice among ready inputs is an arbitrary choice.
- Replicas of a parallel operator run one after another. A partitioned stream routes all its input before the replicas read.
- Go map iteration order is arbitrary wherever the code ranges over a map: window visiting and firing, `Execute`'s `outs`, `Open` and `Close` loops, and `Roots` and `Walk` before sorting. As a result, the exact firing order 14, 14, 9 expected by window_test.go:209 is not proved.
- The graph's `context.Context` threading is replaced by an explicit graph object. This covers `Context`, `GetGraph`, `setGraph` and `getGraph` in both graph files.
- Callbacks are pure functions: `do`, the window and close functions, mapper functions and visitors. What a callback does is returned as a value (new state, collected values, error), and the model applies it.
- `GraphGen.SortByRepr`: `sort.Sort` is modelled by an insertion sort. Its contract is exactly a sorted permutation. Nodes with equal representations may come out in any order, as Go's unstable sort allows.
- `LayeredWalk.Walk`: a cyclic graph walks forever in Go, so the model bounds the loop by `fuel`. `WalkDivergesOnCycle` and `WalkEndsWhenRanked` state when the bound matters.
- `LayeredWalk.ExpandLayer`, `LayeredWalk.VisitArcs`: Go also appends a nil target to the next layer (walk.go:10-11), and the model leaves it out. A nil node has no arcs, so the callback receives the same arcs. But when a layer ends with only nil targets, Go runs one more layer, which has no arcs and which the model does not run.
- `NaiveExecute.Execute`: also bounded by `fuel`. Its contract describes the nodes that run and the arcs their streams go along, not the data in the streams.
- `NaiveExecute.PipelineWalk`: its ensures holds only if no node panics. The data itself is followed step by step in `PipelineData`.
- `LegacyNode.Operator.Do`, `LegacyNode.Operator.Open`, `LegacyNode.ReadRow`, `LegacyNode.ReadOne`: require that no slice stream is attached twice. With the same stream on two inputs, the second read would see the first read's effect, and that aliasing is not modelled.
- The naive nodes are three Go structs behind one interface. Here they are one class whose `kind` says which.
- `NaiveNode.Node.NewSource`: Go's `NewSource` returns `s.Out()`, a `ssp.Stream` that is not part of this model. The constructor gives the node itself.
- `ssp.NewStream`, `ssp.Stream` and the `Out` methods that return it are not part of this model: they live in files this model does not cover. Nodes are connected directly through the graph's `Connect`.
- Wiring streams in `Execute`: `Wire` computes the operators, the ins lists and the outs lists. Creating the `infiniteStream` objects and attaching them is not modelled. The run phase (`Open` and `Close` over every operator) is modelled operator by operator, and error joining by `JoinErrors`.
- `EngineOperator.Operator.Open`: the state after a panic inside `do` is the state when it panicked. Unwinding and recovery are not modelled.
- The cloning of operator templates is modelled by value: a node's state is copied. Sharing between a template and its clones is not modelled.
- `engine.go` calls `values.NewKeyedValue`, `values.NewValueWithSource` and a single-result `values.GetKey`. None of these exist in values/key.go or values/source.go. They are modelled by the wrapper that `SetKey` or `SetSource` adds and by the key `GetKey` returns.
- The close sentinel is a `Type` constructor of its own. In values/meta.go, `Close` repeats the expression `Unknown` in its `const` block, so it gets the same number. A distinct constructor keeps the sentinel recognisable.
- `stream.go` and `node.go` are modelled on the `values.go` revision of values (types Int, Float, Bool, String). They are not modelled on values/.
- Timestamp conversion and RFC 3339 formatting through the `time` package are not modelled (values/time.go:9-19). The `fmt` String renderings and the float and other primitive accessors of list and meta are not modelled either, except that the meta accessors panic.
- `ValuesList.List.AsValue`: a list inside a decorated value is a snapshot of its elements. In Go the value holds the `*List` pointer, so a later `AddValue` on the list is visible through it; the model does not capture that sharing.
- `ValuesList.TypeMismatch`: the message is a fixed prefix. `fmt`'s rendering of the two types is not reproduced.
- Integer widths: only `values.Key` (a `uint64`, reduced modulo 2^64) and the legacy `int64` of `values.go` (`Wrap64`) are bounded. `Timestamp`, `Source`, the round-robin counter, the parallelism, the window size and slide, and int payloads are unbounded `int`, so no wrap-around of Go's `int` or `int64` is modelled for them.
- `Windows.FirstStart`, `Windows.FixedWindowManager.OpenWindows`: the `int64` sums `start + m.size`, `start -= m.slide` and `start += m.slide` (window.go:88, 89, 95, 98) do not wrap. Near the largest `int64`, Go's loops and stops differ from the model's.
- `Windows.FixedWindowManager.OpenWindows`, `Windows.FixedWindowManager.ForEachWindow`: require `slide >= 0`. A slide of 0 is modelled as the runtime's divide-by-zero panic at window.go:86. With a negative slide the Go loops step backwards and only end by `int64` wrap-around, which is not modelled.
- `ValuesKey.SetKey`, `ValuesSource.SetSource`, `ValuesTime.SetTime`: when the wrapper already exists, Go overwrites it in place (values/key.go:41-42, values/source.go:41-42, values/time.go:64-65), so every holder of the same pointer sees the change. The model returns a new value and does not model that sharing.
- `Values.UnwrapError`: the constructors of plain and null values (`values.New`, `values.NewNull`) are in a file that is not part of this model. So the message "value cannot be unwrapped" that their Unwrap returns is the model's own wording, not Go's.
- `bench/wordcount_test.go` is a benchmark with file I/O and is left out.
- `collect.go`, `steer.go`, `time.go` and `graph/node.go` hold interfaces and one-line adapters. `SendClose` is modelled as collecting the close sentinel.

## Findings

| source | as written | input that shows it | evidently intended | confidence | as-written member | corrected member |
|---|---|---|---|---|---|---|
| engine.go:103-109 | once every input has sent its close sentinel, every call of `Next` closes every input channel again | two calls of `Next` after the last sentinel: the second closes an already-closed channel, which panics | `Next` keeps returning nil after the end, as engine_test.go:267-272 expects of repeated calls | not executed | EngineMerge.EndTwiceAsWritten | EngineMerge.EndTwice |
