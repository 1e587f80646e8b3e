/** `SimpleDirectedGraph<TV, TK>`: every edge is one stored pair (from, to);
    adjacency and degrees are found by scanning the edge list. */
module Directed {
  import opened Wrappers
  import opened Lists
  import opened Pairs
  import opened GraphBase

  class SimpleDirectedGraph<V(==), L> {
    /** The inherited `AbstractGraph` state and vertex operations. */
    const store: AbstractGraph<V, L>

    /** The shared invariant, and no pair is stored twice. */
    ghost predicate Valid()
      reads store
    {
      store.Valid() && NoDuplicates(store.edgeSet)
    }

    constructor ()
      ensures Valid() && fresh(store)
      ensures store.vertexSet == [] && store.edgeSet == [] && store.weights == map[]
    {
      store := new AbstractGraph();
    }

    /** `AddEdge(v1, v2, weigth)`: stores the pair (v1, v2) with its label when
        both endpoints are vertices and the pair is new. */
    method AddEdge(v1: Option<V>, v2: Option<V>, weigth: Option<L>) returns (r: Result<bool>)
      requires Valid()
      modifies store
      ensures Valid()
      ensures store.vertexSet == old(store.vertexSet)
      ensures v1.None? || v2.None? || weigth.None? ==> r == Err(ArgumentNullException)
      ensures v1.Some? && v2.Some? && weigth.Some? ==>
                r == Ok(v1.value in store.vertexSet && v2.value in store.vertexSet &&
                        PairValue(v1.value, v2.value) !in old(store.edgeSet))
      ensures r == Ok(true) ==>
                store.edgeSet == old(store.edgeSet) + [PairValue(v1.value, v2.value)] &&
                store.weights == old(store.weights)[PairValue(v1.value, v2.value) := weigth.value] &&
                GetWeigth(v1, v2) == Ok(weigth.value)
      ensures r != Ok(true) ==>
                store.edgeSet == old(store.edgeSet) && store.weights == old(store.weights)
    {
      if v1.None? || v2.None? || weigth.None? {
        return Err(ArgumentNullException);
      }
      if v1.value !in store.vertexSet || v2.value !in store.vertexSet {
        return Ok(false);
      }
      var pair := PairValue(v1.value, v2.value);
      if pair in store.edgeSet {
        return Ok(false);
      }
      NoDuplicatesAppend(store.edgeSet, pair);
      store.edgeSet := store.edgeSet + [pair];
      store.weights := store.weights[pair := weigth.value];
      return Ok(true);
    }

    /** `GetWeigth(v1, v2)`: the label of the stored pair (v1, v2). */
    function GetWeigth(v1: Option<V>, v2: Option<V>): (r: Result<L>)
      reads store
      ensures v1.None? || v2.None? ==> r == Err(ArgumentNullException)
      ensures v1.Some? && v2.Some? ==>
                if PairValue(v1.value, v2.value) in store.weights
                then r == Ok(store.weights[PairValue(v1.value, v2.value)])
                else r == Err(ArgumentException)
    {
      if v1.None? || v2.None? then Err(ArgumentNullException)
      else
        var pair := PairValue(v1.value, v2.value);
        if pair !in store.weights then Err(ArgumentException)
        else Ok(store.weights[pair])
    }

    /** `DeleteEdge(v1, v2)`: removes the pair (v1, v2) and its label. */
    method DeleteEdge(v1: Option<V>, v2: Option<V>) returns (r: Result<bool>)
      requires Valid()
      modifies store
      ensures Valid()
      ensures store.vertexSet == old(store.vertexSet)
      ensures v1.None? || v2.None? ==> r == Err(ArgumentNullException)
      ensures v1.Some? && v2.Some? ==> r == Ok(PairValue(v1.value, v2.value) in old(store.edgeSet))
      ensures r == Ok(true) ==>
                store.edgeSet == Remove(old(store.edgeSet), PairValue(v1.value, v2.value)) &&
                store.weights == old(store.weights) - {PairValue(v1.value, v2.value)} &&
                (forall q :: q in store.edgeSet <==> q in old(store.edgeSet) && q != PairValue(v1.value, v2.value)) &&
                GetWeigth(v1, v2) == Err(ArgumentException)
      ensures r != Ok(true) ==>
                store.edgeSet == old(store.edgeSet) && store.weights == old(store.weights)
    {
      if v1.None? || v2.None? {
        return Err(ArgumentNullException);
      }
      var pair := PairValue(v1.value, v2.value);
      if pair in store.edgeSet {
        ghost var before := store.edgeSet;
        RemoveIsWithout(before, pair);
        WithoutNoDuplicates(before, [Some(pair)]);
        forall q ensures q in Remove(before, pair) <==> q in before && q != pair {
          WithoutMembers(before, [Some(pair)], q);
        }
        store.edgeSet := Remove(store.edgeSet, pair);
        store.weights := store.weights - {pair};
        return Ok(true);
      }
      return Ok(false);
    }

    /** `AreAdjacent(v1, v2)`: whether the pair (v1, v2) is stored; order matters. */
    function AreAdjacent(v1: Option<V>, v2: Option<V>): (r: Result<bool>)
      reads store
      ensures v1.None? || v2.None? ==> r == Err(ArgumentNullException)
      ensures v1.Some? && v2.Some? && (v1.value !in store.vertexSet || v2.value !in store.vertexSet) ==>
                r == Err(ArgumentException)
      ensures v1.Some? && v2.Some? && v1.value in store.vertexSet && v2.value in store.vertexSet ==>
                r == Ok(PairValue(v1.value, v2.value) in store.edgeSet)
    {
      if v1.None? || v2.None? then Err(ArgumentNullException)
      else if v1.value !in store.vertexSet || v2.value !in store.vertexSet then Err(ArgumentException)
      else Ok(PairValue(v1.value, v2.value) in store.edgeSet)
    }

    /** `OutDegree(vertex)`: the number of stored pairs leaving `vertex`. */
    method OutDegree(vertex: Option<V>) returns (r: Result<int>)
      ensures vertex.None? ==> r == Err(ArgumentNullException)
      ensures vertex.Some? && vertex.value !in store.vertexSet ==> r == Err(ArgumentException)
      ensures vertex.Some? && vertex.value in store.vertexSet ==>
                r == Ok(OutCount(store.edgeSet, vertex.value))
    {
      if vertex.None? {
        return Err(ArgumentNullException);
      }
      if vertex.value !in store.vertexSet {
        return Err(ArgumentException);
      }
      var edges := store.edgeSet;
      var counter := 0;
      var i := 0;
      while i < |edges|
        invariant 0 <= i <= |edges|
        invariant counter == OutCount(edges[..i], vertex.value)
      {
        assert edges[..i + 1][..i] == edges[..i];
        if edges[i].GetFirst() == vertex.value {
          counter := counter + 1;
        }
        i := i + 1;
      }
      assert edges[..i] == edges;
      return Ok(counter);
    }

    /** `InDegree(vertex)`: the number of stored pairs entering `vertex`. */
    method InDegree(vertex: Option<V>) returns (r: Result<int>)
      ensures vertex.None? ==> r == Err(ArgumentNullException)
      ensures vertex.Some? && vertex.value !in store.vertexSet ==> r == Err(ArgumentException)
      ensures vertex.Some? && vertex.value in store.vertexSet ==>
                r == Ok(InCount(store.edgeSet, vertex.value))
    {
      if vertex.None? {
        return Err(ArgumentNullException);
      }
      if vertex.value !in store.vertexSet {
        return Err(ArgumentException);
      }
      var edges := store.edgeSet;
      var counter := 0;
      var i := 0;
      while i < |edges|
        invariant 0 <= i <= |edges|
        invariant counter == InCount(edges[..i], vertex.value)
      {
        assert edges[..i + 1][..i] == edges[..i];
        if edges[i].GetSecond() == vertex.value {
          counter := counter + 1;
        }
        i := i + 1;
      }
      assert edges[..i] == edges;
      return Ok(counter);
    }

    /** `Degree(vertex)`: in-degree plus out-degree. */
    method Degree(vertex: Option<V>) returns (r: Result<int>)
      ensures vertex.None? ==> r == Err(ArgumentNullException)
      ensures vertex.Some? && vertex.value !in store.vertexSet ==> r == Err(ArgumentException)
      ensures vertex.Some? && vertex.value in store.vertexSet ==>
                r == Ok(InCount(store.edgeSet, vertex.value) + OutCount(store.edgeSet, vertex.value))
    {
      if vertex.None? {
        return Err(ArgumentNullException);
      }
      if vertex.value !in store.vertexSet {
        return Err(ArgumentException);
      }
      var inDegree := InDegree(vertex);
      var outDegree := OutDegree(vertex);
      return Ok(inDegree.value + outDegree.value);
    }

    /** `AdjacentVertex(vertex)`: the targets of the pairs leaving `vertex`, in
        edge-list order. There is no vertex check, and a null `vertex` equals
        no first component, so it yields nothing. */
    method AdjacentVertex(vertex: Option<V>) returns (r: seq<V>)
      ensures vertex.None? ==> r == []
      ensures vertex.Some? ==>
                r == Successors(store.edgeSet, vertex.value) &&
                |r| == OutCount(store.edgeSet, vertex.value) &&
                forall x :: x in r <==> PairValue(vertex.value, x) in store.edgeSet
    {
      var edges := store.edgeSet;
      r := [];
      if vertex.None? {
        return;
      }
      var v := vertex.value;
      var i := 0;
      while i < |edges|
        invariant 0 <= i <= |edges|
        invariant r == Successors(edges[..i], v)
      {
        assert edges[..i + 1][..i] == edges[..i];
        if edges[i].GetFirst() == v {
          r := r + [edges[i].GetSecond()];
        }
        i := i + 1;
      }
      assert edges[..i] == edges;
      forall x ensures x in r <==> PairValue(v, x) in edges {
        SuccessorsSpec(edges, v, x);
      }
      SuccessorsSpec(edges, v, v);
    }

    /** `EdgeNumber()`: with no pair stored twice, the edge count is also the
        number of labels. */
    lemma EdgeNumberIsLabelCount()
      requires Valid()
      ensures store.EdgeNumber() == |store.weights|
    {
      ElementsOfDistinct(store.edgeSet);
      assert store.weights.Keys == Elements(store.edgeSet);
    }

    /** A stored pair and a label are the same thing seen two ways: between
        two vertices, `AreAdjacent` holds exactly when `GetWeigth` succeeds. */
    lemma AdjacentIffLabelled(a: V, b: V)
      requires Valid()
      requires a in store.vertexSet && b in store.vertexSet
      ensures AreAdjacent(Some(a), Some(b)) == Ok(GetWeigth(Some(a), Some(b)).Ok?)
    {
    }

    /** (a, b) is stored exactly when b is listed by `AdjacentVertex(a)`. */
    lemma AdjacentIffSuccessor(a: V, b: V)
      requires a in store.vertexSet && b in store.vertexSet
      ensures AreAdjacent(Some(a), Some(b)) == Ok(b in Successors(store.edgeSet, a))
    {
      SuccessorsSpec(store.edgeSet, a, b);
    }

    /** Degree sum: when no endpoint of a stored pair has been deleted, the
        degrees of all vertices add up to twice the number of stored pairs. */
    lemma DegreeSumIsTwiceEdgeNumber()
      requires Valid()
      requires forall k :: 0 <= k < |store.edgeSet| ==>
                 store.edgeSet[k].first in store.vertexSet && store.edgeSet[k].second in store.vertexSet
      ensures OutSum(store.vertexSet, store.edgeSet) + InSum(store.vertexSet, store.edgeSet) ==
              2 * store.EdgeNumber()
    {
      DegreeSum(store.vertexSet, store.edgeSet);
    }
  }
}
