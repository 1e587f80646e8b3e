/** `SimpleUndirectedGraph<T, TK>`: every edge {a, b} is stored as the two
    pairs (a, b) and (b, a) under one label; they are added and removed
    together. A self-loop (a, a) therefore puts the same pair twice in the
    edge list, while the label dictionary holds it once. */
module Undirected {
  import opened Wrappers
  import opened Lists
  import opened Pairs
  import opened GraphBase

  /** Every stored pair is stored in reverse too. */
  ghost predicate SwapClosed<V>(edges: seq<PairValue<V>>) {
    forall p :: p in edges ==> p.Swap() in edges
  }

  /** A stored pair and its reverse carry the same label. */
  ghost predicate SameLabels<V, L>(edges: seq<PairValue<V>>, weights: map<PairValue<V>, L>) {
    forall p :: p in edges ==> p in weights && p.Swap() in weights && weights[p.Swap()] == weights[p]
  }

  /** A self-loop is in the edge list twice (once per direction), any other
      pair once. */
  ghost predicate OncePerDirection<V>(edges: seq<PairValue<V>>) {
    forall p :: p in edges ==> multiset(edges)[p] == if p.IsLoop() then 2 else 1
  }

  /** Taking a stored pair and its reverse out of the multiset of stored
      pairs leaves neither of them and keeps both invariants. */
  lemma RemoveBothDirections<V>(s: seq<PairValue<V>>, p: PairValue<V>, next: seq<PairValue<V>>)
    requires SwapClosed(s) && OncePerDirection(s) && p in s
    requires multiset(next) == multiset(s) - multiset{p} - multiset{p.Swap()}
    ensures forall r :: r in next <==> r in s && r != p && r != p.Swap()
    ensures SwapClosed(next) && OncePerDirection(next)
  {
    var q := p.Swap();
    SwapInvolution(p, p);
    assert q in s;
    assert multiset(s)[q] == multiset(s)[p];
    assert multiset(next)[p] == 0 && multiset(next)[q] == 0;
    forall r ensures r in next <==> r in s && r != p && r != q {
      if r != p && r != q {
        assert multiset(next)[r] == multiset(s)[r];
      }
    }
    forall r | r in next ensures r.Swap() in next {
      SwapInvolution(r, p);
      assert r.Swap() in s;
    }
    forall r | r in next ensures multiset(next)[r] == if r.IsLoop() then 2 else 1 {
      assert multiset(next)[r] == multiset(s)[r];
    }
  }

  /** The first stored pair's reverse is somewhere after it; taking both out
      keeps the invariant. */
  lemma PeelFirstPair<V>(s: seq<PairValue<V>>) returns (j: nat, next: seq<PairValue<V>>)
    requires SwapClosed(s) && OncePerDirection(s) && s != []
    ensures j < |s| - 1 && s[1..][j] == s[0].Swap()
    ensures next == s[1..][..j] + s[1..][j + 1..]
    ensures SwapClosed(next) && OncePerDirection(next)
    ensures |next| == |s| - 2
  {
    var p := s[0];
    var q := p.Swap();
    var rest := s[1..];
    assert s == [p] + rest;
    assert multiset(rest) == multiset(s) - multiset{p};
    assert q in rest by {
      SwapInvolution(p, p);
      if q == p {
        assert multiset(s)[p] == 2;
      } else {
        assert q in s;
      }
    }
    j := IndexOf(rest, q);
    next := Remove(rest, q);
    RemoveMultiset(rest, q);
    RemoveBothDirections(s, p, next);
  }

  /** Pairing argument: when every stored pair can be matched with its
      reverse, the edge list has even length and every vertex starts as many
      pairs as it ends. */
  lemma {:induction false} Pairing<V>(s: seq<PairValue<V>>, v: V)
    requires SwapClosed(s) && OncePerDirection(s)
    ensures |s| % 2 == 0
    ensures OutCount(s, v) == InCount(s, v)
    decreases |s|
  {
    if s != [] {
      var j, next := PeelFirstPair(s);
      Pairing(next, v);
      CountsRemoveFirstAnd(s, j, v);
    }
  }

  /** Appending a new pair together with its reverse keeps the invariant. */
  lemma AddKeepsInvariant<V, L>(edges: seq<PairValue<V>>, weights: map<PairValue<V>, L>, p: PairValue<V>, w: L)
    requires SwapClosed(edges) && SameLabels(edges, weights) && OncePerDirection(edges)
    requires p !in edges && p.Swap() !in edges
    ensures var edges' := edges + [p, p.Swap()];
            var weights' := weights[p := w][p.Swap() := w];
            SwapClosed(edges') && SameLabels(edges', weights') && OncePerDirection(edges')
  {
    var q := p.Swap();
    var edges' := edges + [p, q];
    var weights' := weights[p := w][q := w];
    SwapInvolution(p, p);
    assert multiset(edges') == multiset(edges) + multiset{p} + multiset{q};
    forall r | r in edges'
      ensures r.Swap() in edges' && r in weights' && r.Swap() in weights' && weights'[r.Swap()] == weights'[r]
    {
      SwapInvolution(r, p);
      if r != p && r != q {
        assert r in edges;
      }
    }
    forall r | r in edges' ensures multiset(edges')[r] == if r.IsLoop() then 2 else 1 {
      if r != p && r != q {
        assert r in edges;
      }
    }
  }

  /** Removing a stored pair and its reverse keeps the invariant, leaves
      neither in the edge list and every other pair where it was. */
  lemma DeleteKeepsInvariant<V, L>(edges: seq<PairValue<V>>, weights: map<PairValue<V>, L>, p: PairValue<V>)
    requires SwapClosed(edges) && SameLabels(edges, weights) && OncePerDirection(edges)
    requires forall r :: r in weights ==> r in edges
    requires p in edges
    ensures var edges' := Remove(Remove(edges, p), p.Swap());
            var weights' := weights - {p} - {p.Swap()};
            SwapClosed(edges') && SameLabels(edges', weights') && OncePerDirection(edges') &&
            (forall r :: r in weights' ==> r in edges') &&
            (forall r :: r in edges' <==> r in edges && r != p && r != p.Swap())
  {
    var q := p.Swap();
    var edges' := Remove(Remove(edges, p), q);
    var weights' := weights - {p} - {q};
    RemoveMultiset(edges, p);
    RemoveMultiset(Remove(edges, p), q);
    RemoveBothDirections(edges, p, edges');
    LabelsAfterDelete(edges, weights, p, edges');
  }

  /** Dropping the labels of a pair and its reverse matches dropping both
      pairs from the edge list. */
  lemma LabelsAfterDelete<V, L>(edges: seq<PairValue<V>>, weights: map<PairValue<V>, L>, p: PairValue<V>,
                                edges': seq<PairValue<V>>)
    requires SameLabels(edges, weights) && forall r :: r in weights ==> r in edges
    requires forall r :: r in edges' <==> r in edges && r != p && r != p.Swap()
    ensures var weights' := weights - {p} - {p.Swap()};
            SameLabels(edges', weights') && forall r :: r in weights' ==> r in edges'
  {
    var q := p.Swap();
    var weights' := weights - {p} - {q};
    forall r | r in edges' ensures r in weights' && r.Swap() in weights' && weights'[r.Swap()] == weights'[r] {
      SwapInvolution(r, p);
    }
    forall r | r in weights' ensures r in edges' {
      assert r in weights && r != p && r != q;
    }
  }

  class SimpleUndirectedGraph<V(==), L> {
    /** The inherited `AbstractGraph` state and vertex operations. */
    const store: AbstractGraph<V, L>

    /** The shared invariant, and every edge is held in both directions. */
    ghost predicate Valid()
      reads store
    {
      store.Valid() && SwapClosed(store.edgeSet) && SameLabels(store.edgeSet, store.weights) &&
      OncePerDirection(store.edgeSet)
    }

    constructor ()
      ensures Valid() && fresh(store)
      ensures store.vertexSet == [] && store.edgeSet == [] && store.weights == map[]
    {
      store := new AbstractGraph();
    }

    /** `AddEdge(v1, v2, weigth)`: stores (v1, v2) and (v2, v1) under one label
        when both endpoints are vertices and neither direction is stored. */
    method AddEdge(v1: Option<V>, v2: Option<V>, weigth: Option<L>) returns (r: Result<bool>)
      requires Valid()
      modifies store
      ensures Valid()
      ensures store.vertexSet == old(store.vertexSet)
      ensures v1.None? || v2.None? || weigth.None? ==> r == Err(ArgumentNullException)
      ensures v1.Some? && v2.Some? && weigth.Some? ==>
                r == Ok(v1.value in store.vertexSet && v2.value in store.vertexSet &&
                        PairValue(v1.value, v2.value) !in old(store.edgeSet) &&
                        PairValue(v2.value, v1.value) !in old(store.edgeSet))
      ensures r == Ok(true) ==>
                store.edgeSet == old(store.edgeSet) + [PairValue(v1.value, v2.value), PairValue(v2.value, v1.value)] &&
                store.weights == old(store.weights)[PairValue(v1.value, v2.value) := weigth.value]
                                                   [PairValue(v2.value, v1.value) := weigth.value] &&
                GetWeigth(v1, v2) == Ok(weigth.value) && GetWeigth(v2, v1) == Ok(weigth.value)
      ensures r != Ok(true) ==>
                store.edgeSet == old(store.edgeSet) && store.weights == old(store.weights)
    {
      if v1.None? || v2.None? || weigth.None? {
        return Err(ArgumentNullException);
      }
      if v1.value !in store.vertexSet || v2.value !in store.vertexSet {
        return Ok(false);
      }
      var pair := PairValue(v1.value, v2.value);
      var returningPair := PairValue(v2.value, v1.value);
      if pair in store.edgeSet || returningPair in store.edgeSet {
        return Ok(false);
      }
      AddKeepsInvariant(store.edgeSet, store.weights, pair, weigth.value);
      store.edgeSet := store.edgeSet + [pair, returningPair];
      store.weights := store.weights[pair := weigth.value][returningPair := weigth.value];
      return Ok(true);
    }

    /** `GetWeigth(v1, v2)`: the label of the stored pair (v1, v2). */
    function GetWeigth(v1: Option<V>, v2: Option<V>): (r: Result<L>)
      reads store
      ensures v1.None? || v2.None? ==> r == Err(ArgumentNullException)
      ensures v1.Some? && v2.Some? ==>
                if PairValue(v1.value, v2.value) in store.weights
                then r == Ok(store.weights[PairValue(v1.value, v2.value)])
                else r == Err(ArgumentException)
    {
      if v1.None? || v2.None? then Err(ArgumentNullException)
      else
        var pair := PairValue(v1.value, v2.value);
        if pair !in store.weights then Err(ArgumentException)
        else Ok(store.weights[pair])
    }

    /** `DeleteEdge(v1, v2)`: removes both directions and both labels, and only
        when both directions are stored. */
    method DeleteEdge(v1: Option<V>, v2: Option<V>) returns (r: Result<bool>)
      requires Valid()
      modifies store
      ensures Valid()
      ensures store.vertexSet == old(store.vertexSet)
      ensures v1.None? || v2.None? ==> r == Err(ArgumentNullException)
      ensures v1.Some? && v2.Some? ==>
                r == Ok(PairValue(v1.value, v2.value) in old(store.edgeSet) &&
                        PairValue(v2.value, v1.value) in old(store.edgeSet))
      ensures r == Ok(true) ==>
                store.edgeSet == Remove(Remove(old(store.edgeSet), PairValue(v1.value, v2.value)),
                                        PairValue(v2.value, v1.value)) &&
                store.weights == old(store.weights) - {PairValue(v1.value, v2.value)} - {PairValue(v2.value, v1.value)} &&
                (forall q :: q in store.edgeSet <==>
                   q in old(store.edgeSet) && q != PairValue(v1.value, v2.value) && q != PairValue(v2.value, v1.value)) &&
                GetWeigth(v1, v2) == Err(ArgumentException) && GetWeigth(v2, v1) == Err(ArgumentException)
      ensures r != Ok(true) ==>
                store.edgeSet == old(store.edgeSet) && store.weights == old(store.weights)
    {
      if v1.None? || v2.None? {
        return Err(ArgumentNullException);
      }
      var pair := PairValue(v1.value, v2.value);
      var returningPair := PairValue(v2.value, v1.value);
      if pair in store.edgeSet && returningPair in store.edgeSet {
        DeleteKeepsInvariant(store.edgeSet, store.weights, pair);
        store.edgeSet := Remove(Remove(store.edgeSet, pair), returningPair);
        store.weights := store.weights - {pair} - {returningPair};
        return Ok(true);
      }
      return Ok(false);
    }

    /** `AreAdjacent(v1, v2)`: whether the pair (v1, v2) is stored. */
    function AreAdjacent(v1: Option<V>, v2: Option<V>): (r: Result<bool>)
      reads store
      ensures v1.None? || v2.None? ==> r == Err(ArgumentNullException)
      ensures v1.Some? && v2.Some? && (v1.value !in store.vertexSet || v2.value !in store.vertexSet) ==>
                r == Err(ArgumentException)
      ensures v1.Some? && v2.Some? && v1.value in store.vertexSet && v2.value in store.vertexSet ==>
                r == Ok(PairValue(v1.value, v2.value) in store.edgeSet)
    {
      if v1.None? || v2.None? then Err(ArgumentNullException)
      else if v1.value !in store.vertexSet || v2.value !in store.vertexSet then Err(ArgumentException)
      else Ok(PairValue(v1.value, v2.value) in store.edgeSet)
    }

    /** `Degree(vertex)`: the number of stored pairs starting at `vertex`. */
    method Degree(vertex: Option<V>) returns (r: Result<int>)
      ensures vertex.None? ==> r == Err(ArgumentNullException)
      ensures vertex.Some? && vertex.value !in store.vertexSet ==> r == Err(ArgumentException)
      ensures vertex.Some? && vertex.value in store.vertexSet ==>
                r == Ok(OutCount(store.edgeSet, vertex.value))
    {
      if vertex.None? {
        return Err(ArgumentNullException);
      }
      if vertex.value !in store.vertexSet {
        return Err(ArgumentException);
      }
      var edges := store.edgeSet;
      var counter := 0;
      var i := 0;
      while i < |edges|
        invariant 0 <= i <= |edges|
        invariant counter == OutCount(edges[..i], vertex.value)
      {
        assert edges[..i + 1][..i] == edges[..i];
        if edges[i].GetFirst() == vertex.value {
          counter := counter + 1;
        }
        i := i + 1;
      }
      assert edges[..i] == edges;
      return Ok(counter);
    }

    /** `OutDegree(vertex)`: the same as `Degree`. */
    method OutDegree(vertex: Option<V>) returns (r: Result<int>)
      ensures vertex.None? ==> r == Err(ArgumentNullException)
      ensures vertex.Some? && vertex.value !in store.vertexSet ==> r == Err(ArgumentException)
      ensures vertex.Some? && vertex.value in store.vertexSet ==>
                r == Ok(OutCount(store.edgeSet, vertex.value))
    {
      if vertex.None? {
        return Err(ArgumentNullException);
      }
      if vertex.value !in store.vertexSet {
        return Err(ArgumentException);
      }
      r := Degree(vertex);
    }

    /** `InDegree(vertex)`: the same as `Degree`, which, because every pair is
        stored in reverse too, is also the number of stored pairs ending at
        `vertex`. */
    method InDegree(vertex: Option<V>) returns (r: Result<int>)
      ensures vertex.None? ==> r == Err(ArgumentNullException)
      ensures vertex.Some? && vertex.value !in store.vertexSet ==> r == Err(ArgumentException)
      ensures vertex.Some? && vertex.value in store.vertexSet ==>
                r == Ok(OutCount(store.edgeSet, vertex.value))
      ensures Valid() && vertex.Some? && vertex.value in store.vertexSet ==>
                r == Ok(InCount(store.edgeSet, vertex.value))
    {
      if vertex.None? {
        return Err(ArgumentNullException);
      }
      if vertex.value !in store.vertexSet {
        return Err(ArgumentException);
      }
      r := Degree(vertex);
      if Valid() {
        DegreeCountsBothEnds(vertex.value);
      }
    }

    /** `AdjacentVertex(vertex)`: the other ends of the pairs starting at
        `vertex`, in edge-list order. */
    method AdjacentVertex(vertex: Option<V>) returns (r: Result<seq<V>>)
      ensures vertex.None? ==> r == Err(ArgumentNullException)
      ensures vertex.Some? && vertex.value !in store.vertexSet ==> r == Err(ArgumentException)
      ensures vertex.Some? && vertex.value in store.vertexSet ==>
                r == Ok(Successors(store.edgeSet, vertex.value)) &&
                |r.value| == OutCount(store.edgeSet, vertex.value) &&
                (forall x :: x in r.value <==> PairValue(vertex.value, x) in store.edgeSet)
    {
      if vertex.None? {
        return Err(ArgumentNullException);
      }
      if vertex.value !in store.vertexSet {
        return Err(ArgumentException);
      }
      var v := vertex.value;
      var edges := store.edgeSet;
      var adjacent := [];
      var i := 0;
      while i < |edges|
        invariant 0 <= i <= |edges|
        invariant adjacent == Successors(edges[..i], v)
      {
        assert edges[..i + 1][..i] == edges[..i];
        if edges[i].GetFirst() == v {
          adjacent := adjacent + [edges[i].GetSecond()];
        }
        i := i + 1;
      }
      assert edges[..i] == edges;
      forall x ensures x in adjacent <==> PairValue(v, x) in edges {
        SuccessorsSpec(edges, v, x);
      }
      SuccessorsSpec(edges, v, v);
      return Ok(adjacent);
    }

    /** Every vertex starts as many stored pairs as it ends. */
    lemma DegreeCountsBothEnds(v: V)
      requires Valid()
      ensures OutCount(store.edgeSet, v) == InCount(store.edgeSet, v)
    {
      Pairing(store.edgeSet, v);
    }

    /** Each edge contributes two pairs, a self-loop two equal ones, so the
        edge list always has even length. */
    lemma EdgeNumberIsEven()
      requires Valid()
      ensures store.EdgeNumber() % 2 == 0
    {
      var any: V;
      if store.edgeSet != [] {
        any := store.edgeSet[0].first;
        Pairing(store.edgeSet, any);
      }
    }

    /** The label of an edge is the same in both directions. */
    lemma GetWeigthSymmetric(a: Option<V>, b: Option<V>)
      requires Valid()
      ensures GetWeigth(a, b) == GetWeigth(b, a)
    {
      if a.Some? && b.Some? {
        SwapInvolution(PairValue(a.value, b.value), PairValue(a.value, b.value));
      }
    }

    /** Adjacency is symmetric. */
    lemma AreAdjacentSymmetric(a: Option<V>, b: Option<V>)
      requires Valid()
      ensures AreAdjacent(a, b) == AreAdjacent(b, a)
    {
      if a.Some? && b.Some? {
        SwapInvolution(PairValue(a.value, b.value), PairValue(a.value, b.value));
      }
    }

    /** Degree sum: when no endpoint of a stored pair has been deleted, the
        degrees of all vertices add up to the length of the edge list, twice
        the number of edges. */
    lemma DegreeSumIsEdgeNumber()
      requires Valid()
      requires forall k :: 0 <= k < |store.edgeSet| ==>
                 store.edgeSet[k].first in store.vertexSet && store.edgeSet[k].second in store.vertexSet
      ensures OutSum(store.vertexSet, store.edgeSet) == store.EdgeNumber()
    {
      DegreeSum(store.vertexSet, store.edgeSet);
    }
  }
}
