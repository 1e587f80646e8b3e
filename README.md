# SimpleGraphLibrary in Dafny

A model of SimpleGraphLibrary, a small generic C# graph library, with proofs about the model. In the library, a graph holds three pieces of state that are changed in place:

- the vertex list `VertexSet`, with no duplicates;
- the edge list `EdgeSet` of ordered pairs;
- the label dictionary `Weigths`, keyed by pair.

`AbstractGraph<TV, TK>` owns this state, the vertex operations (single and bulk insert and delete), the counts and the enumerations. It has two variants:

- **`SimpleDirectedGraph`** stores one pair per edge. Adjacency and degrees come from scanning the edge list.
- **`SimpleUndirectedGraph`** stores every edge as the pair and its reverse, under one label. It adds and removes the two together.

**`PairValue<T>`** is the immutable, order-sensitive pair that keys the edges and their labels.

Modules, one per source file plus two of shared vocabulary:

- `Wrappers` (`wrappers.dfy`):
  - `Option` stands for a nullable argument (`None` is `null`).
  - `Error` names the two exceptions the library throws.
  - `Result` carries a return value or an exception.
  - `Outcome` is the same for `void` methods.
- `Lists` (`lists.dfy`) holds the parts of .NET `List<T>` the library relies on:
  - `IndexOf` finds the first occurrence;
  - `Remove` deletes the first occurrence;
  - reference definitions for the bulk vertex operations: `Distinct`, `Values` (the non-null elements) and `Without`.
- `Pairs` (`pair_value.dfy`) gives `PairValue` as a datatype, with the 32-bit hash.
- `GraphBase` (`abstract_graph.dfy`) has:
  - the class `AbstractGraph`, whose fields `vertexSet`, `edgeSet` and `weights` are updated by its methods;
  - the edge-list queries `OutCount`, `InCount` and `Successors`;
  - the degree-sum lemmas.
- `Directed` (`simple_directed_graph.dfy`) and `Undirected` (`simple_undirected_graph.dfy`) hold the two variants:
  - Each class keeps the shared state in `const store: AbstractGraph`, its methods declare `modifies store`, and `Valid()` adds the variant's invariant to the shared one.
  - Directed invariant: no pair is stored twice.
  - Undirected invariant: every stored pair is stored in reverse too, under the same label; a pair is stored once, or twice if it is a self-loop.
- `Scenarios` (`scenarios.dfy`) replays a selection of the library's unit tests against the model and states the outcomes they expect. Each scenario's row below names the test lines it covers and the values it states. `SelfLoopScenario` pins the undirected self-loop behaviour, which no test exercises.

Invariants proved:

- The vertex list never holds a duplicate.
- The pairs in the edge list are exactly the keys of the label map.
- In the undirected variant, the edge list has even length, (a, b) is stored iff (b, a) is, both carry the same label, and every vertex starts as many stored pairs as it ends.

Two behaviours differ from what a "simple graph" would suggest; the model follows the code:

- **Undirected self-loop.** A simple graph's edge set has no duplicates. But `AddEdge(a, a, w)` appends the pair (a, a) twice (GraphLibrary/GraphLibrary/SimpleUndirectedGraph.cs:18-19) and creates one dictionary key. So the undirected invariant is stated over membership and multiplicity, not over distinctness.
- **Undirected degree.** A degree is usually the number of edges in which the vertex is either endpoint. The code counts the stored pairs whose first component is the vertex (SimpleUndirectedGraph.cs:67-71), so a self-loop counts 2.

## Model

| member | source | states |
|---|---|---|
| Pairs.NewPairValue | GraphLibrary/GraphLibrary/PairValue.cs:9-17 | the constructor fails with ArgumentNullException exactly when a component is null; otherwise `GetFirst`/`GetSecond` return the two arguments unchanged |
| Pairs.ContainsBothComponents | GraphLibrary/GraphLibrary/PairValue.cs:29-32 | `Contains(x)` holds iff x is the first or the second component; both components are contained, null never is, and swapping the pair does not change the answer |
| Pairs.EqualsIsValueEquality | GraphLibrary/GraphLibrary/PairValue.cs:34-40 | `Equals` on a boxed pair is componentwise equality |
| Pairs.EqualsRejectsNonPairs | GraphLibrary/GraphLibrary/PairValue.cs:36-37 | `Equals(null)` and `Equals` of an object of another type are false |
| Pairs.EqualsIsOrderSensitive | GraphLibrary/GraphLibrary/PairValue.cs:34-40 | (a, b) equals (b, a) only when a = b |
| Pairs.EqualsIsEquivalence | GraphLibrary/GraphLibrary/PairValue.cs:34-40 | `Equals` is reflexive, symmetric and transitive |
| Pairs.HashAgreesWithEquals | GraphLibrary/GraphLibrary/PairValue.cs:42-45 | equal pairs hash equally, and (a, b) hashes as (b, a) |
| Pairs.HashIsSumWithoutOverflow | GraphLibrary/GraphLibrary/PairValue.cs:42-45 | when the sum of the component hashes fits an `int`, the hash is that sum |
| Pairs.WrapInt32 | GraphLibrary/GraphLibrary/PairValue.cs:44 | C#'s unchecked `int` addition: the result is congruent to the exact sum modulo 2^32 and equals it when it fits |
| Pairs.SwapInvolution | GraphLibrary/GraphLibrary/SimpleUndirectedGraph.cs:14-15 | the returning pair of the returning pair is the pair itself, so swapping is one-to-one; a pair is its own returning pair iff it is a self-loop |
| Lists.IndexOf | GraphLibrary/GraphLibrary/AbstractGraph.cs:44 | `List.IndexOf`: the first position holding x, or -1 exactly when x is absent |
| Lists.Remove | GraphLibrary/GraphLibrary/AbstractGraph.cs:44 | `List.Remove`: when x is present, the list with the element at x's first position cut out (so the others keep their order, one element fewer); unchanged when x is absent |
| Lists.RemoveMultiset | GraphLibrary/GraphLibrary/SimpleDirectedGraph.cs:39 | `List.Remove` takes out exactly one copy of x and keeps every other element |
| Lists.RemoveIsWithout | GraphLibrary/GraphLibrary/AbstractGraph.cs:36 | in a duplicate-free list, removing the first occurrence is filtering x out |
| Lists.WithoutTwice | GraphLibrary/GraphLibrary/AbstractGraph.cs:33-36 | deleting one batch of values after another is deleting both batches at once |
| Lists.DistinctPrefix | GraphLibrary/GraphLibrary/AbstractGraph.cs:24-27 | appending to a duplicate-free list and keeping first occurrences leaves that list unchanged in front |
| GraphBase.AbstractGraph.constructor | GraphLibrary/GraphLibrary/AbstractGraph.cs:8-10 | a new graph has no vertices, no pairs and no labels, and satisfies the invariant |
| GraphBase.AbstractGraph.AddVertex | GraphLibrary/GraphLibrary/AbstractGraph.cs:11-19 | null gives ArgumentNullException; a present vertex gives false and no change; otherwise the vertex is appended and the result is true; edges and labels are untouched and the list stays duplicate-free |
| GraphBase.AbstractGraph.AddVertices | GraphLibrary/GraphLibrary/AbstractGraph.cs:20-28 | a null collection gives ArgumentNullException; otherwise the list becomes the old list followed by the non-null, not-yet-present elements in first-seen order; the old list stays in front, membership is old-or-named, no duplicates arise, edges and labels are untouched |
| GraphBase.AbstractGraph.DeleteVertices | GraphLibrary/GraphLibrary/AbstractGraph.cs:29-37 | a null collection gives ArgumentNullException; otherwise every named value is removed and the other vertices keep their order; edges and labels stay, dangling or not |
| GraphBase.AbstractGraph.DeleteVertex | GraphLibrary/GraphLibrary/AbstractGraph.cs:38-46 | null gives ArgumentNullException; an absent vertex gives false and no change; a present one is removed (the list is one shorter and keeps its order) and the result is true; incident edges and labels stay |
| GraphBase.AbstractGraph.GetVertexSet | GraphLibrary/GraphLibrary/AbstractGraph.cs:47-51 | yields exactly the vertices in stored order |
| GraphBase.AbstractGraph.GetEdgeSet | GraphLibrary/GraphLibrary/AbstractGraph.cs:53-57 | yields exactly the stored pairs in stored order |
| GraphBase.AbstractGraph.VertexNumber | GraphLibrary/GraphLibrary/AbstractGraph.cs:59-62 | the length of the vertex list; reads the state and changes nothing |
| GraphBase.AbstractGraph.VertexNumberCountsVertices | GraphLibrary/GraphLibrary/AbstractGraph.cs:59-62 | the vertex count is the number of distinct vertices |
| GraphBase.AbstractGraph.EdgeNumber | GraphLibrary/GraphLibrary/AbstractGraph.cs:63-66 | the length of the edge list; reads the state and changes nothing |
| GraphBase.SuccessorsSpec | GraphLibrary/GraphLibrary/SimpleDirectedGraph.cs:90-95 | the adjacency list has one entry per pair leaving v, and x is listed iff (v, x) is stored |
| GraphBase.OutCountPositive | GraphLibrary/GraphLibrary/SimpleDirectedGraph.cs:70-74 | a vertex's out-count is positive iff some stored pair leaves it |
| GraphBase.DegreeSum | GraphLibrary/GraphLibrary/SimpleDirectedGraph.cs:64-88 | when every stored pair joins two listed vertices, the out-counts of all vertices add up to the number of stored pairs, and so do the in-counts |
| GraphBase.CountsAppend | GraphLibrary/GraphLibrary/SimpleDirectedGraph.cs:70-74 | the edge-list counts are additive over concatenation |
| Directed.SimpleDirectedGraph.constructor | GraphLibrary/GraphLibrary/SimpleDirectedGraph.cs:6 | a new directed graph is empty and satisfies its invariant |
| Directed.SimpleDirectedGraph.AddEdge | GraphLibrary/GraphLibrary/SimpleDirectedGraph.cs:8-20 | any null argument gives ArgumentNullException; otherwise the result is true iff both endpoints are vertices and the pair is new; on true exactly (v1, v2) is appended and labelled, so `GetWeigth(v1, v2)` gives the label; on false nothing changes (a repeated pair keeps its old label) |
| Directed.SimpleDirectedGraph.GetWeigth | GraphLibrary/GraphLibrary/SimpleDirectedGraph.cs:22-30 | a null endpoint gives ArgumentNullException, an unlabelled pair ArgumentException, otherwise the stored label |
| Directed.SimpleDirectedGraph.DeleteEdge | GraphLibrary/GraphLibrary/SimpleDirectedGraph.cs:32-44 | a null endpoint gives ArgumentNullException; the result is true iff the pair was stored; on true the pair leaves the edge list (first occurrence, others kept) and its label leaves the map, so a second call gives false and `GetWeigth` ArgumentException |
| Directed.SimpleDirectedGraph.AreAdjacent | GraphLibrary/GraphLibrary/SimpleDirectedGraph.cs:46-53 | a null endpoint gives ArgumentNullException, a non-vertex ArgumentException, otherwise whether (v1, v2) is stored |
| Directed.SimpleDirectedGraph.Degree | GraphLibrary/GraphLibrary/SimpleDirectedGraph.cs:55-62 | null and non-vertex errors; otherwise in-count plus out-count |
| Directed.SimpleDirectedGraph.OutDegree | GraphLibrary/GraphLibrary/SimpleDirectedGraph.cs:64-75 | null and non-vertex errors; otherwise the number of stored pairs whose first component is the vertex |
| Directed.SimpleDirectedGraph.InDegree | GraphLibrary/GraphLibrary/SimpleDirectedGraph.cs:77-88 | null and non-vertex errors; otherwise the number of stored pairs whose second component is the vertex |
| Directed.SimpleDirectedGraph.AdjacentVertex | GraphLibrary/GraphLibrary/SimpleDirectedGraph.cs:90-95 | the second components of the pairs leaving the vertex, in edge-list order, one per pair, with no vertex check; a null argument yields nothing |
| Directed.SimpleDirectedGraph.EdgeNumberIsLabelCount | GraphLibrary/GraphLibrary/SimpleDirectedGraph.cs:14-19 | the edge count equals the number of labels |
| Directed.SimpleDirectedGraph.AdjacentIffLabelled | GraphLibrary/GraphLibrary/SimpleDirectedGraph.cs:46-53 | between two vertices, `AreAdjacent` holds iff `GetWeigth` succeeds |
| Directed.SimpleDirectedGraph.AdjacentIffSuccessor | GraphLibrary/GraphLibrary/SimpleDirectedGraph.cs:90-95 | (a, b) is adjacent iff b is in `AdjacentVertex(a)` |
| Directed.SimpleDirectedGraph.DegreeSumIsTwiceEdgeNumber | GraphLibrary/GraphLibrary/SimpleDirectedGraph.cs:55-62 | when no endpoint has been deleted, the degrees add up to twice the edge count |
| Undirected.RemoveBothDirections | GraphLibrary/GraphLibrary/SimpleUndirectedGraph.cs:43-44 | taking a stored pair and its reverse out leaves neither, keeps every other pair and keeps the pairing invariant |
| Undirected.PeelFirstPair | GraphLibrary/GraphLibrary/SimpleUndirectedGraph.cs:18-19 | the first stored pair's reverse is stored after it, and taking both out keeps the invariant |
| Undirected.Pairing | GraphLibrary/GraphLibrary/SimpleUndirectedGraph.cs:14-21 | when every pair is matched by its reverse, the edge list has even length and every vertex starts as many pairs as it ends |
| Undirected.AddKeepsInvariant | GraphLibrary/GraphLibrary/SimpleUndirectedGraph.cs:14-22 | appending a new pair and its reverse under one label keeps symmetry, equal labels and multiplicities, self-loop included |
| Undirected.DeleteKeepsInvariant | GraphLibrary/GraphLibrary/SimpleUndirectedGraph.cs:39-48 | removing a pair and its reverse with their labels keeps the invariant, leaves neither and keeps all other pairs |
| Undirected.LabelsAfterDelete | GraphLibrary/GraphLibrary/SimpleUndirectedGraph.cs:45-46 | dropping both labels matches dropping both pairs |
| Undirected.SimpleUndirectedGraph.constructor | GraphLibrary/GraphLibrary/SimpleUndirectedGraph.cs:6 | a new undirected graph is empty and satisfies its invariant |
| Undirected.SimpleUndirectedGraph.AddEdge | GraphLibrary/GraphLibrary/SimpleUndirectedGraph.cs:8-23 | any null argument gives ArgumentNullException; otherwise the result is true iff both endpoints are vertices and neither direction is stored; on true the pair and its reverse are appended under one label and `GetWeigth` gives it both ways; on false nothing changes; the symmetry invariant is kept |
| Undirected.SimpleUndirectedGraph.GetWeigth | GraphLibrary/GraphLibrary/SimpleUndirectedGraph.cs:25-33 | a null endpoint gives ArgumentNullException, an unlabelled pair ArgumentException, otherwise the stored label |
| Undirected.SimpleUndirectedGraph.DeleteEdge | GraphLibrary/GraphLibrary/SimpleUndirectedGraph.cs:35-50 | a null endpoint gives ArgumentNullException; the result is true iff both directions were stored; on true both pairs and both labels go and all other pairs stay; on false nothing changes; the symmetry invariant is kept |
| Undirected.SimpleUndirectedGraph.AreAdjacent | GraphLibrary/GraphLibrary/SimpleUndirectedGraph.cs:52-59 | null and non-vertex errors; otherwise whether (v1, v2) is stored |
| Undirected.SimpleUndirectedGraph.Degree | GraphLibrary/GraphLibrary/SimpleUndirectedGraph.cs:61-72 | null and non-vertex errors; otherwise the number of stored pairs whose first component is the vertex |
| Undirected.SimpleUndirectedGraph.OutDegree | GraphLibrary/GraphLibrary/SimpleUndirectedGraph.cs:74-81 | the same errors and value as `Degree` |
| Undirected.SimpleUndirectedGraph.InDegree | GraphLibrary/GraphLibrary/SimpleUndirectedGraph.cs:83-90 | the same errors and value as `Degree`, which in a valid graph is also the number of stored pairs ending at the vertex |
| Undirected.SimpleUndirectedGraph.AdjacentVertex | GraphLibrary/GraphLibrary/SimpleUndirectedGraph.cs:92-101 | null and non-vertex errors; otherwise the other ends of the pairs starting at the vertex, in edge-list order, one per pair |
| Undirected.SimpleUndirectedGraph.DegreeCountsBothEnds | GraphLibrary/GraphLibrary/SimpleUndirectedGraph.cs:83-90 | in a valid graph, out-count equals in-count for every vertex |
| Undirected.SimpleUndirectedGraph.EdgeNumberIsEven | GraphLibrary/GraphLibrary/SimpleUndirectedGraph.cs:18-19 | the edge count is even |
| Undirected.SimpleUndirectedGraph.GetWeigthSymmetric | GraphLibrary/GraphLibrary/SimpleUndirectedGraph.cs:20-21 | `GetWeigth(a, b)` and `GetWeigth(b, a)` agree, errors included |
| Undirected.SimpleUndirectedGraph.AreAdjacentSymmetric | GraphLibrary/GraphLibrary/SimpleUndirectedGraph.cs:52-59 | `AreAdjacent(a, b)` and `AreAdjacent(b, a)` agree, errors included |
| Undirected.SimpleUndirectedGraph.DegreeSumIsEdgeNumber | GraphLibrary/GraphLibrary/SimpleUndirectedGraph.cs:61-72 | when no endpoint has been deleted, the degrees add up to the edge count, twice the number of logical edges |
| Scenarios.FilledArray | GraphLibrary/GraphLibraryTests/AbstractGraphTests.cs:47-51 | bulk insertion of A, B, null, C, A lists A, B, C |
| Scenarios.VertexListScenario | GraphLibrary/GraphLibraryTests/AbstractGraphTests.cs:47-60 | bulk insertion of A, B, null, C, A lists A, B, C; deleting A then gives true, deleting it again false, and the list is B, C |
| Scenarios.VertexNumberScenario | GraphLibrary/GraphLibraryTests/AbstractGraphTests.cs:83-90 | the vertex count is 0 for a new graph, 3 after adding A, B, C and 2 after deleting B |
| Scenarios.DeleteVerticesScenario | GraphLibrary/GraphLibraryTests/AbstractGraphTests.cs:69-74 | deleting B, null, C from A, B, C leaves A |
| Scenarios.DirectedDegreeScenario | GraphLibrary/GraphLibraryTests/SimpleDirectedGraphTests.cs:131-140 | with (A, B) and (A, C) the degrees are 2, 1, 1, 0 |
| Scenarios.DirectedInOutScenario | GraphLibrary/GraphLibraryTests/SimpleDirectedGraphTests.cs:155-184 | with (A, B) and (A, C), the in-degrees of A, B, C are 0, 1, 1 and their out-degrees 2, 0, 0 |
| Scenarios.DirectedAdjacencyScenario | GraphLibrary/GraphLibraryTests/SimpleDirectedGraphTests.cs:199-208 | adjacency lists B, C / A, C / empty, in insertion order |
| Scenarios.DirectedDeleteScenario | GraphLibrary/GraphLibraryTests/SimpleDirectedGraphTests.cs:66-94 | a repeated pair is refused; delete gives true, then false, and the label is gone |
| Scenarios.UndirectedDegreeScenario | GraphLibrary/GraphLibraryTests/SimpleUndirectedGraphTests.cs:132-144 | with A-B and A-C, `Degree` gives 2 for A and 1 for B and C |
| Scenarios.UndirectedOutDegreeScenario | GraphLibrary/GraphLibraryTests/SimpleUndirectedGraphTests.cs:170-182 | with A-B and A-C, `OutDegree` gives 2 for A and 1 for B and C |
| Scenarios.UndirectedInDegreeScenario | GraphLibrary/GraphLibraryTests/SimpleUndirectedGraphTests.cs:184-196 | with A-B and A-C, `InDegree` gives 2 for A and 1 for B and C |
| Scenarios.UndirectedAdjacencyScenario | GraphLibrary/GraphLibraryTests/SimpleUndirectedGraphTests.cs:198-205 | with A-B and A-C, the adjacency lists are B, C for A, A for B and A for C |
| Scenarios.UndirectedWeigthScenario | GraphLibrary/GraphLibraryTests/SimpleUndirectedGraphTests.cs:59-64 | the label of A-B reads W1 from A and from B |
| Scenarios.UndirectedAddScenario | GraphLibrary/GraphLibraryTests/SimpleUndirectedGraphTests.cs:34-41 | A-B is added once; repeating it, or adding B-A, gives false; the edge list holds (A, B) and (B, A) |
| Scenarios.UndirectedDeleteScenario | GraphLibrary/GraphLibraryTests/SimpleUndirectedGraphTests.cs:82-88 | deleting A-B gives true, and the edge list then holds neither (A, B) nor (B, A) |
| Scenarios.UndirectedEdgeErrorScenario | GraphLibrary/GraphLibraryTests/SimpleUndirectedGraphTests.cs:21-56 | an edge to a non-vertex gives false, a null label ArgumentNullException, an unlabelled pair ArgumentException |
| Scenarios.UndirectedQueryErrorScenario | GraphLibrary/GraphLibraryTests/SimpleUndirectedGraphTests.cs:99-129 | `AreAdjacent(A, E)` and `Degree(E)`, with E not a vertex, give ArgumentException |
| Scenarios.UndirectedAdjacentErrorScenario | GraphLibrary/GraphLibrary/SimpleUndirectedGraph.cs:96-97 | undirected `AdjacentVertex(E)`, with E not a vertex, gives ArgumentException |
| Scenarios.SelfLoopScenario | GraphLibrary/GraphLibrary/SimpleUndirectedGraph.cs:8-72 | `AddEdge(A, A, w)` gives true and stores (A, A) twice under one label; `Degree(A)` is 2; `DeleteEdge(A, A)` gives true and empties the edge list |

## Left out

- Lazy enumeration: `GetVertexSet`, `GetEdgeSet` and both `AdjacentVertex` are C# iterators, modelled as methods returning a snapshot `seq`. Deferred execution, restarting, and changing the graph while enumerating are not modelled. In particular, the null and non-vertex exceptions of the undirected `AdjacentVertex` fire at the call in the model, but only on first enumeration in C#.
- The `PairValue` constructor's runtime-type check (ArgumentException when `t1.GetType() != t2.GetType()`, PairValue.cs:13-14) is left out: both components of a Dafny `PairValue<T>` have the same type, so the case cannot arise.
- `Equals(object)` is modelled over a three-case `Object` datatype (null, a pair, anything else). C# reflection and casting are not modelled.
- Vertex equality is `==` on a Dafny type with equality. A `TV` whose `Equals` or `GetHashCode` is inconsistent, or a vertex mutated after insertion, is not modelled.
- `GetHashCode` takes the components' hash function as a parameter. Concrete .NET hash values and `Dictionary` internals are not modelled; `Weigths` is a Dafny `map`.
- `VertexNumber`, `EdgeNumber` and the degree counters are `int` in C#. The model uses unbounded integers, because overflowing them needs more than 2^31 stored elements.
- The `IGraph` and `IPairValue` interfaces carry signatures only. Inheritance from `AbstractGraph` is modelled by composition: each variant reaches the vertex operations, the counts and the enumerations through its `store` field. Those operations leave `edgeSet` and `weights` untouched, so each variant's invariant survives them.
- The overloads `AddVertex(IEnumerable<TV>)` and `DeleteVertex(IEnumerable<TV>)` are named `AddVertices` and `DeleteVertices`. Their argument is a finite sequence of nullable elements, so infinite or lazily failing enumerables are not modelled.
- Undirected.SimpleUndirectedGraph.InDegree: the statement that it also counts the pairs ending at the vertex is conditional on the class invariant `Valid()`, because the C# method has no precondition.
