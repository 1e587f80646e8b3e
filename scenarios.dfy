/** The library's unit-test scenarios, replayed against the model: each
    method builds a graph the way a test fixture does and states the outcome
    the test expects. */
module Scenarios {
  import opened Wrappers
  import opened Lists
  import opened Pairs
  import opened GraphBase
  import opened Directed
  import opened Undirected

  /** The tests' vertex names. */
  datatype Name = A | B | C | D | E

  /** The non-null names of a bulk argument, one element at a time. */
  lemma ValuesSnoc<T>(items: seq<Option<T>>, x: Option<T>)
    ensures Values(items + [x]) == Values(items) + (if x.Some? then [x.value] else [])
  {
    assert (items + [x])[..|items|] == items;
  }

  lemma DistinctSnoc<T>(s: seq<T>, x: T)
    ensures Distinct(s + [x]) == if x in s then Distinct(s) else Distinct(s) + [x]
  {
    assert (s + [x])[..|s|] == s;
  }

  /** The non-null names of `new[] {"A", "B", null, "C", "A"}`. */
  lemma FilledValues()
    ensures Values([Some(A), Some(B), None, Some(C), Some(A)]) == [A, B, C, A]
  {
    var i1, i2, i3, i4 := [Some(A)], [Some(A), Some(B)], [Some(A), Some(B), None], [Some(A), Some(B), None, Some(C)];
    var all := [Some(A), Some(B), None, Some(C), Some(A)];
    assert i1 == [] + [Some(A)] && i2 == i1 + [Some(B)] && i3 == i2 + [None];
    assert i4 == i3 + [Some(C)] && all == i4 + [Some(A)];
    ValuesSnoc([], Some(A));
    ValuesSnoc(i1, Some(B));
    ValuesSnoc(i2, None);
    ValuesSnoc(i3, Some(C));
    ValuesSnoc(i4, Some(A));
  }

  /** Three distinct names are their own first occurrences. */
  lemma DistinctThree()
    ensures Distinct([A, B, C]) == [A, B, C]
  {
    assert NoDuplicates([A, B, C]);
    DistinctOfDistinct([A, B, C]);
  }

  /** `AddVertex(new[] {"A", "B", null, "C", "A"})` on an empty graph lists A, B, C. */
  lemma FilledArray()
    ensures Distinct([] + Values([Some(A), Some(B), None, Some(C), Some(A)])) == [A, B, C]
  {
    FilledValues();
    assert [] + [A, B, C, A] == [A, B, C] + [A];
    DistinctSnoc([A, B, C], A);
    DistinctThree();
  }

  /** `AddVertex(new[] {"A", "B", "C"})` on an empty graph lists A, B, C. */
  lemma ThreeVertices()
    ensures Distinct([] + Values([Some(A), Some(B), Some(C)])) == [A, B, C]
  {
    var i1, i2, all := [Some(A)], [Some(A), Some(B)], [Some(A), Some(B), Some(C)];
    assert i1 == [] + [Some(A)] && i2 == i1 + [Some(B)] && all == i2 + [Some(C)];
    ValuesSnoc([], Some(A));
    ValuesSnoc(i1, Some(B));
    ValuesSnoc(i2, Some(C));
    assert [] + Values(all) == [A, B, C];
    DistinctThree();
  }

  /** The edge-list counts, one stored pair at a time. */
  lemma CountsSnoc<V>(edges: seq<PairValue<V>>, p: PairValue<V>, v: V)
    ensures OutCount(edges + [p], v) == OutCount(edges, v) + (if p.first == v then 1 else 0)
    ensures InCount(edges + [p], v) == InCount(edges, v) + (if p.second == v then 1 else 0)
  {
    assert (edges + [p])[..|edges|] == edges;
  }

  /** The successor list, one stored pair at a time. */
  lemma SuccessorsSnoc<V>(edges: seq<PairValue<V>>, p: PairValue<V>, v: V)
    ensures Successors(edges + [p], v) == Successors(edges, v) + (if p.first == v then [p.second] else [])
  {
    assert (edges + [p])[..|edges|] == edges;
  }

  /** The degrees after adding (A, B) and (A, C) to a directed graph. */
  lemma DirectedDegrees(v: Name)
    ensures OutCount([PairValue(A, B), PairValue(A, C)], v) == (if v == A then 2 else 0)
    ensures InCount([PairValue(A, B), PairValue(A, C)], v) == (if v == B || v == C then 1 else 0)
  {
    var ab, ac := PairValue(A, B), PairValue(A, C);
    assert [ab] == [] + [ab] && [ab, ac] == [ab] + [ac];
    CountsSnoc([], ab, v);
    CountsSnoc([ab], ac, v);
  }

  /** The successor lists after adding (A, B), (A, C), (B, A), (B, C). */
  lemma DirectedSuccessors(v: Name)
    ensures Successors([PairValue(A, B), PairValue(A, C), PairValue(B, A), PairValue(B, C)], v) ==
              if v == A then [B, C] else if v == B then [A, C] else []
  {
    var ab, ac, ba, bc := PairValue(A, B), PairValue(A, C), PairValue(B, A), PairValue(B, C);
    var e1, e2, e3 := [ab], [ab, ac], [ab, ac, ba];
    assert e1 == [] + [ab] && e2 == e1 + [ac] && e3 == e2 + [ba];
    assert [ab, ac, ba, bc] == e3 + [bc];
    SuccessorsSnoc([], ab, v);
    var s1 := if v == A then [B] else [];
    assert Successors(e1, v) == s1;
    SuccessorsSnoc(e1, ac, v);
    var s2 := if v == A then [B, C] else [];
    assert Successors(e2, v) == s2;
    SuccessorsSnoc(e2, ba, v);
    var s3 := if v == A then [B, C] else if v == B then [A] else [];
    assert Successors(e3, v) == s3;
    SuccessorsSnoc(e3, bc, v);
  }

  /** The stored pairs after adding A-B and A-C to an undirected graph. */
  function UndirectedStarEdges(): seq<PairValue<Name>> {
    [PairValue(A, B), PairValue(B, A), PairValue(A, C), PairValue(C, A)]
  }

  /** The degrees after adding A-B and A-C to an undirected graph. */
  lemma UndirectedDegrees(v: Name)
    ensures OutCount(UndirectedStarEdges(), v) == (if v == A then 2 else if v == B || v == C then 1 else 0)
  {
    var ab, ba, ac, ca := PairValue(A, B), PairValue(B, A), PairValue(A, C), PairValue(C, A);
    var e1, e2, e3 := [ab], [ab, ba], [ab, ba, ac];
    assert e1 == [] + [ab] && e2 == e1 + [ba] && e3 == e2 + [ac];
    assert UndirectedStarEdges() == e3 + [ca];
    CountsSnoc([], ab, v);
    CountsSnoc(e1, ba, v);
    assert OutCount(e2, v) == if v == A || v == B then 1 else 0;
    CountsSnoc(e2, ac, v);
    CountsSnoc(e3, ca, v);
  }

  /** The successor lists after adding A-B and A-C to an undirected graph. */
  lemma UndirectedSuccessors(v: Name)
    ensures Successors(UndirectedStarEdges(), v) ==
              if v == A then [B, C] else if v == B || v == C then [A] else []
  {
    var ab, ba, ac, ca := PairValue(A, B), PairValue(B, A), PairValue(A, C), PairValue(C, A);
    var e1, e2, e3 := [ab], [ab, ba], [ab, ba, ac];
    assert e1 == [] + [ab] && e2 == e1 + [ba] && e3 == e2 + [ac];
    assert UndirectedStarEdges() == e3 + [ca];
    SuccessorsSnoc([], ab, v);
    assert Successors(e1, v) == if v == A then [B] else [];
    SuccessorsSnoc(e1, ba, v);
    assert Successors(e2, v) == if v == A then [B] else if v == B then [A] else [];
    SuccessorsSnoc(e2, ac, v);
    assert Successors(e3, v) == if v == A then [B, C] else if v == B then [A] else [];
    SuccessorsSnoc(e3, ca, v);
  }

  /** The directed fixture (vertices A, B, C) with one more vertex. */
  method DirectedFixture() returns (g: SimpleDirectedGraph<Name, string>)
    ensures fresh(g) && fresh(g.store) && g.Valid()
    ensures g.store.vertexSet == [A, B, C] && g.store.edgeSet == []
  {
    g := new SimpleDirectedGraph<Name, string>();
    var _ := g.store.AddVertices(Some([Some(A), Some(B), Some(C)]));
    ThreeVertices();
  }

  /** The undirected fixture: vertices A, B, C, D. */
  method UndirectedFixture() returns (g: SimpleUndirectedGraph<Name, string>)
    ensures fresh(g) && fresh(g.store) && g.Valid()
    ensures g.store.vertexSet == [A, B, C, D] && g.store.edgeSet == []
  {
    g := new SimpleUndirectedGraph<Name, string>();
    var _ := g.store.AddVertices(Some([Some(A), Some(B), Some(C)]));
    ThreeVertices();
    var _ := g.store.AddVertex(Some(D));
  }

  /** Deleting B, null and C from A, B, C leaves A. */
  lemma DeleteTwo()
    ensures Without([A, B, C], [Some(B), None, Some(C)]) == [A]
  {
    assert [A, B, C][1..] == [B, C];
    assert [B, C][1..] == [C];
  }

  /** `AddVertex(new[] {"A", "B", null, "C", "A"})` on a new graph. */
  method FilledGraph() returns (g: AbstractGraph<Name, int>)
    ensures fresh(g) && g.Valid()
    ensures g.vertexSet == [A, B, C]
  {
    g := new AbstractGraph<Name, int>();
    var _ := g.AddVertices(Some([Some(A), Some(B), None, Some(C), Some(A)]));
    FilledArray();
  }

  /** Deleting A from A, B, C leaves B, C. */
  lemma DeleteFirst()
    ensures Without([A, B, C], [Some(A)]) == [B, C]
  {
    assert [A, B, C][1..] == [B, C];
    assert [B, C][1..] == [C];
  }

  /** Bulk insertion skips nulls and repeats; deleting a vertex twice
      succeeds once. */
  method VertexListScenario() returns (listed: seq<Name>, first: Result<bool>, second: Result<bool>,
                                       left: seq<Name>, count: nat)
    ensures listed == [A, B, C]
    ensures first == Ok(true) && second == Ok(false)
    ensures left == [B, C] && count == 2
  {
    var g := FilledGraph();
    listed := g.GetVertexSet();
    DeleteFirst();
    first := g.DeleteVertex(Some(A));
    second := g.DeleteVertex(Some(A));
    left := g.GetVertexSet();
    count := g.VertexNumber();
  }

  /** The vertex count of a new graph, after adding A, B, C and after
      deleting B. */
  method VertexNumberScenario() returns (empty: nat, three: nat, two: nat)
    ensures empty == 0 && three == 3 && two == 2
  {
    var g := new AbstractGraph<Name, int>();
    empty := g.VertexNumber();
    var _ := g.AddVertices(Some([Some(A), Some(B), Some(C)]));
    ThreeVertices();
    three := g.VertexNumber();
    var _ := g.DeleteVertex(Some(B));
    two := g.VertexNumber();
  }

  /** A bulk deletion with a null element removes the named vertices. */
  method DeleteVerticesScenario() returns (left: seq<Name>)
    ensures left == [A]
  {
    var g := new AbstractGraph<Name, int>();
    var _ := g.AddVertices(Some([Some(A), Some(B), Some(C)]));
    ThreeVertices();
    var _ := g.DeleteVertices(Some([Some(B), None, Some(C)]));
    DeleteTwo();
    left := g.GetVertexSet();
  }

  /** The directed fixture after adding the pairs (A, B), (A, C). */
  method DirectedAbAc() returns (g: SimpleDirectedGraph<Name, string>)
    ensures fresh(g) && fresh(g.store) && g.Valid()
    ensures g.store.vertexSet == [A, B, C]
    ensures g.store.edgeSet == [PairValue(A, B), PairValue(A, C)]
  {
    g := DirectedFixture();
    var _ := g.AddEdge(Some(A), Some(B), Some("L1"));
    assert g.store.edgeSet == [PairValue(A, B)];
    var _ := g.AddEdge(Some(A), Some(C), Some("L2"));
  }

  /** The same graph with the isolated vertex D; the test adds D before the
      edges, which leaves the same state. */
  method DirectedStar() returns (g: SimpleDirectedGraph<Name, string>)
    ensures fresh(g) && fresh(g.store) && g.Valid()
    ensures g.store.vertexSet == [A, B, C, D]
    ensures g.store.edgeSet == [PairValue(A, B), PairValue(A, C)]
  {
    g := DirectedAbAc();
    var _ := g.store.AddVertex(Some(D));
  }

  /** `Degree` is in-degree plus out-degree. */
  method DirectedDegreeScenario() returns (a: Result<int>, b: Result<int>, c: Result<int>, d: Result<int>)
    ensures a == Ok(2) && b == Ok(1) && c == Ok(1) && d == Ok(0)
  {
    var g := DirectedStar();
    DirectedDegrees(A);
    DirectedDegrees(B);
    DirectedDegrees(C);
    DirectedDegrees(D);
    a := g.Degree(Some(A));
    b := g.Degree(Some(B));
    c := g.Degree(Some(C));
    d := g.Degree(Some(D));
  }

  method DirectedInOutScenario() returns (inA: Result<int>, inB: Result<int>, inC: Result<int>,
                                          outA: Result<int>, outB: Result<int>, outC: Result<int>)
    ensures inA == Ok(0) && inB == Ok(1) && inC == Ok(1)
    ensures outA == Ok(2) && outB == Ok(0) && outC == Ok(0)
  {
    var g := DirectedStar();
    DirectedDegrees(A);
    DirectedDegrees(B);
    DirectedDegrees(C);
    inA := g.InDegree(Some(A));
    inB := g.InDegree(Some(B));
    inC := g.InDegree(Some(C));
    outA := g.OutDegree(Some(A));
    outB := g.OutDegree(Some(B));
    outC := g.OutDegree(Some(C));
  }

  /** The directed fixture after adding (A, B), (A, C), (B, A), (B, C). */
  method DirectedTwoStars() returns (g: SimpleDirectedGraph<Name, string>)
    ensures fresh(g) && fresh(g.store) && g.Valid()
    ensures g.store.edgeSet == [PairValue(A, B), PairValue(A, C), PairValue(B, A), PairValue(B, C)]
  {
    g := DirectedAbAc();
    TwoStarsExtend();
    var _ := g.AddEdge(Some(B), Some(A), Some("L3"));
    var _ := g.AddEdge(Some(B), Some(C), Some("L4"));
  }

  /** (B, A) and then (B, C) are new, and appending them gives the two stars. */
  lemma TwoStarsExtend()
    ensures var ab, ac, ba, bc := PairValue(A, B), PairValue(A, C), PairValue(B, A), PairValue(B, C);
            ba !in [ab, ac] && [ab, ac] + [ba] == [ab, ac, ba] &&
            bc !in [ab, ac, ba] && [ab, ac, ba] + [bc] == [ab, ac, ba, bc]
  {
  }

  /** Directed adjacency lists keep edge-list order. */
  method DirectedAdjacencyScenario() returns (fromA: seq<Name>, fromB: seq<Name>, fromC: seq<Name>)
    ensures fromA == [B, C] && fromB == [A, C] && fromC == []
  {
    var g := DirectedTwoStars();
    DirectedSuccessors(A);
    DirectedSuccessors(B);
    DirectedSuccessors(C);
    fromA := g.AdjacentVertex(Some(A));
    fromB := g.AdjacentVertex(Some(B));
    fromC := g.AdjacentVertex(Some(C));
  }

  /** A deleted pair cannot be deleted again and loses its label; a repeated
      pair is refused. */
  method DirectedDeleteScenario() returns (repeated: Result<bool>, deleted: Result<bool>, again: Result<bool>,
                                           stored: Result<string>)
    ensures repeated == Ok(false) && deleted == Ok(true) && again == Ok(false)
    ensures stored == Err(ArgumentException)
  {
    var g := DirectedFixture();
    var _ := g.AddEdge(Some(A), Some(B), Some("Label"));
    repeated := g.AddEdge(Some(A), Some(B), Some("Label2"));
    deleted := g.DeleteEdge(Some(A), Some(B));
    again := g.DeleteEdge(Some(A), Some(B));
    stored := g.GetWeigth(Some(A), Some(B));
  }

  /** The undirected fixture after adding A-B. */
  method UndirectedEdge() returns (g: SimpleUndirectedGraph<Name, string>)
    ensures fresh(g) && fresh(g.store) && g.Valid()
    ensures g.store.vertexSet == [A, B, C, D]
    ensures g.store.edgeSet == [PairValue(A, B), PairValue(B, A)]
    ensures g.store.weights == map[PairValue(A, B) := "W1", PairValue(B, A) := "W1"]
  {
    g := UndirectedFixture();
    var _ := g.AddEdge(Some(A), Some(B), Some("W1"));
  }

  /** A-C is new next to A-B, and appending it gives the star's pairs. */
  lemma StarExtends()
    ensures var before := [PairValue(A, B), PairValue(B, A)];
            PairValue(A, C) !in before && PairValue(C, A) !in before &&
            before + [PairValue(A, C), PairValue(C, A)] == UndirectedStarEdges()
  {
  }

  /** The undirected fixture after adding A-B and A-C. */
  method UndirectedStar() returns (g: SimpleUndirectedGraph<Name, string>)
    ensures fresh(g) && fresh(g.store) && g.Valid()
    ensures g.store.vertexSet == [A, B, C, D]
    ensures g.store.edgeSet == UndirectedStarEdges()
  {
    g := UndirectedEdge();
    StarExtends();
    var _ := g.AddEdge(Some(A), Some(C), Some("W2"));
  }

  /** Undirected `Degree` counts each edge once at both of its ends. */
  method UndirectedDegreeScenario() returns (a: Result<int>, b: Result<int>, c: Result<int>)
    ensures a == Ok(2) && b == Ok(1) && c == Ok(1)
  {
    var g := UndirectedStar();
    UndirectedDegrees(A);
    UndirectedDegrees(B);
    UndirectedDegrees(C);
    a := g.Degree(Some(A));
    b := g.Degree(Some(B));
    c := g.Degree(Some(C));
  }

  /** Undirected `OutDegree` gives the same values as `Degree`. */
  method UndirectedOutDegreeScenario() returns (a: Result<int>, b: Result<int>, c: Result<int>)
    ensures a == Ok(2) && b == Ok(1) && c == Ok(1)
  {
    var g := UndirectedStar();
    UndirectedDegrees(A);
    UndirectedDegrees(B);
    UndirectedDegrees(C);
    a := g.OutDegree(Some(A));
    b := g.OutDegree(Some(B));
    c := g.OutDegree(Some(C));
  }

  /** Undirected `InDegree` gives the same values as `Degree`. */
  method UndirectedInDegreeScenario() returns (a: Result<int>, b: Result<int>, c: Result<int>)
    ensures a == Ok(2) && b == Ok(1) && c == Ok(1)
  {
    var g := UndirectedStar();
    UndirectedDegrees(A);
    UndirectedDegrees(B);
    UndirectedDegrees(C);
    a := g.InDegree(Some(A));
    b := g.InDegree(Some(B));
    c := g.InDegree(Some(C));
  }

  /** Undirected adjacency lists. */
  method UndirectedAdjacencyScenario() returns (fromA: Result<seq<Name>>, fromB: Result<seq<Name>>,
                                                fromC: Result<seq<Name>>)
    ensures fromA == Ok([B, C]) && fromB == Ok([A]) && fromC == Ok([A])
  {
    var g := UndirectedStar();
    UndirectedSuccessors(A);
    UndirectedSuccessors(B);
    UndirectedSuccessors(C);
    fromA := g.AdjacentVertex(Some(A));
    fromB := g.AdjacentVertex(Some(B));
    fromC := g.AdjacentVertex(Some(C));
  }

  /** The label of an undirected edge reads the same from both ends. */
  method UndirectedWeigthScenario() returns (forward: Result<string>, backward: Result<string>)
    ensures forward == Ok("W1") && backward == Ok("W1")
  {
    var g := UndirectedEdge();
    forward := g.GetWeigth(Some(A), Some(B));
    backward := g.GetWeigth(Some(B), Some(A));
  }

  /** An edge is refused when it, or its reverse, is already stored; both
      directions are listed. */
  method UndirectedAddScenario() returns (added: Result<bool>, repeated: Result<bool>, reverse: Result<bool>,
                                          edges: seq<PairValue<Name>>)
    ensures added == Ok(true) && repeated == Ok(false) && reverse == Ok(false)
    ensures PairValue(A, B) in edges && PairValue(B, A) in edges
  {
    var g := UndirectedFixture();
    added := g.AddEdge(Some(A), Some(B), Some("L1"));
    repeated := g.AddEdge(Some(A), Some(B), Some("L2"));
    reverse := g.AddEdge(Some(B), Some(A), Some("L3"));
    edges := g.store.GetEdgeSet();
  }

  /** Deleting an undirected edge removes both directions. */
  method UndirectedDeleteScenario() returns (deleted: Result<bool>, edges: seq<PairValue<Name>>)
    ensures deleted == Ok(true)
    ensures PairValue(A, B) !in edges && PairValue(B, A) !in edges
  {
    var g := UndirectedFixture();
    var _ := g.AddEdge(Some(A), Some(B), Some("W1"));
    deleted := g.DeleteEdge(Some(A), Some(B));
    edges := g.store.GetEdgeSet();
  }

  /** The error paths of the edge operations: a null label, and E, which is
      not a vertex. */
  method UndirectedEdgeErrorScenario() returns (missing: Result<bool>, nullEdge: Result<bool>,
                                                unknown: Result<string>)
    ensures missing == Ok(false) && nullEdge == Err(ArgumentNullException)
    ensures unknown == Err(ArgumentException)
  {
    var g := UndirectedFixture();
    assert E !in g.store.vertexSet;
    missing := g.AddEdge(Some(A), Some(E), Some("L1"));
    nullEdge := g.AddEdge(Some(A), Some(B), None);
    unknown := g.GetWeigth(Some(A), Some(D));
  }

  /** `AreAdjacent` and `Degree` on E, which is not a vertex. */
  method UndirectedQueryErrorScenario() returns (adjacent: Result<bool>, degree: Result<int>)
    ensures adjacent == Err(ArgumentException) && degree == Err(ArgumentException)
  {
    var g := UndirectedFixture();
    assert E !in g.store.vertexSet;
    adjacent := g.AreAdjacent(Some(A), Some(E));
    degree := g.Degree(Some(E));
  }

  /** Undirected `AdjacentVertex` on a non-vertex raises ArgumentException. */
  method UndirectedAdjacentErrorScenario() returns (from: Result<seq<Name>>)
    ensures from == Err(ArgumentException)
  {
    var g := UndirectedFixture();
    assert E !in g.store.vertexSet;
    from := g.AdjacentVertex(Some(E));
  }

  /** The undirected fixture after adding the self-loop A-A: the same pair
      is stored twice, under one label. */
  method UndirectedLoop() returns (g: SimpleUndirectedGraph<Name, string>, added: Result<bool>)
    ensures fresh(g) && fresh(g.store) && g.Valid()
    ensures added == Ok(true) && g.store.vertexSet == [A, B, C, D]
    ensures g.store.edgeSet == [PairValue(A, A), PairValue(A, A)]
    ensures g.store.weights == map[PairValue(A, A) := "W"]
  {
    g := UndirectedFixture();
    LoopStored();
    added := g.AddEdge(Some(A), Some(A), Some("W"));
  }

  /** Adding A-A to no pairs and no labels stores the pair twice and one label. */
  lemma LoopStored()
    ensures var p := PairValue(A, A);
            [] + [p, p] == [p, p] && map[][p := "W"][p := "W"] == map[p := "W"]
  {
  }

  /** Both copies of the self-loop start at its vertex. */
  lemma LoopDegree()
    ensures OutCount([PairValue(A, A), PairValue(A, A)], A) == 2
  {
    var p := PairValue(A, A);
    assert [p] == [] + [p] && [p, p] == [p] + [p];
    CountsSnoc([], p, A);
    CountsSnoc([p], p, A);
  }

  /** Taking one copy of the self-loop out at a time empties the list. */
  lemma RemoveLoopTwice(p: PairValue<Name>)
    ensures Remove(Remove([p, p], p), p) == []
  {
    assert IndexOf([p, p], p) == 0;
    assert Remove([p, p], p) == [p];
    assert IndexOf([p], p) == 0;
  }

  /** A self-loop is stored as the same pair twice under one label; it counts
      2 towards its vertex's degree, and one deletion removes both copies. */
  method SelfLoopScenario() returns (added: Result<bool>, edges: seq<PairValue<Name>>, labels: nat,
                                     degree: Result<int>, deleted: Result<bool>, after: seq<PairValue<Name>>)
    ensures added == Ok(true) && edges == [PairValue(A, A), PairValue(A, A)] && labels == 1
    ensures degree == Ok(2)
    ensures deleted == Ok(true) && after == []
  {
    var g;
    g, added := UndirectedLoop();
    var p := PairValue(A, A);
    edges := g.store.GetEdgeSet();
    labels := |g.store.weights|;
    LoopDegree();
    degree := g.Degree(Some(A));
    RemoveLoopTwice(p);
    deleted := g.DeleteEdge(Some(A), Some(A));
    after := g.store.GetEdgeSet();
  }
}
