/** `AbstractGraph<TV, TK>`: the state every graph variant shares (the vertex
    list, the edge list of ordered pairs and the label dictionary), the vertex
    operations, the counts and the enumerations; and the edge-list queries the
    two variants compute by scanning the edge list. */
module GraphBase {
  import opened Wrappers
  import opened Lists
  import opened Pairs

  /** The number of stored pairs whose first component is `v`. */
  function OutCount<V(==)>(edges: seq<PairValue<V>>, v: V): nat {
    if edges == [] then 0
    else OutCount(edges[..|edges| - 1], v) + (if edges[|edges| - 1].first == v then 1 else 0)
  }

  /** The number of stored pairs whose second component is `v`. */
  function InCount<V(==)>(edges: seq<PairValue<V>>, v: V): nat {
    if edges == [] then 0
    else InCount(edges[..|edges| - 1], v) + (if edges[|edges| - 1].second == v then 1 else 0)
  }

  /** The second components of the stored pairs whose first component is `v`,
      in edge-list order. */
  function Successors<V(==)>(edges: seq<PairValue<V>>, v: V): seq<V> {
    if edges == [] then []
    else
      var last := edges[|edges| - 1];
      Successors(edges[..|edges| - 1], v) + (if last.first == v then [last.second] else [])
  }

  lemma {:induction false} CountsAppend<V>(a: seq<PairValue<V>>, b: seq<PairValue<V>>, v: V)
    ensures OutCount(a + b, v) == OutCount(a, v) + OutCount(b, v)
    ensures InCount(a + b, v) == InCount(a, v) + InCount(b, v)
  {
    if b == [] {
      assert a + b == a;
    } else {
      var init := b[..|b| - 1];
      CountsAppend(a, init, v);
      assert a + b == (a + init) + [b[|b| - 1]];
      assert (a + b)[..|a + b| - 1] == a + init;
    }
  }

  /** Removing the pair at position `j` lowers each count by that pair's share. */
  lemma CountsRemoveAt<V>(s: seq<PairValue<V>>, j: nat, v: V)
    requires j < |s|
    ensures OutCount(s, v) == OutCount(s[..j] + s[j + 1..], v) + (if s[j].first == v then 1 else 0)
    ensures InCount(s, v) == InCount(s[..j] + s[j + 1..], v) + (if s[j].second == v then 1 else 0)
  {
    var a, c, b := s[..j], [s[j]], s[j + 1..];
    assert s == (a + c) + b;
    CountsAppend(a + c, b, v);
    CountsAppend(a, c, v);
    CountsAppend(a, b, v);
    assert c[..0] == [];
  }
  /** Taking out the first stored pair and the one at position `j` of the rest. */
  lemma CountsRemoveFirstAnd<V>(s: seq<PairValue<V>>, j: nat, v: V)
    requires j < |s| - 1
    ensures OutCount(s, v) == OutCount(s[1..][..j] + s[1..][j + 1..], v) +
              (if s[0].first == v then 1 else 0) + (if s[1..][j].first == v then 1 else 0)
    ensures InCount(s, v) == InCount(s[1..][..j] + s[1..][j + 1..], v) +
              (if s[0].second == v then 1 else 0) + (if s[1..][j].second == v then 1 else 0)
  {
    assert s == [s[0]] + s[1..];
    CountsAppend([s[0]], s[1..], v);
    assert [s[0]][..0] == [];
    CountsRemoveAt(s[1..], j, v);
  }


  /** A vertex has a positive out-count exactly when some stored pair starts at it. */
  lemma {:induction false} OutCountPositive<V>(edges: seq<PairValue<V>>, v: V)
    ensures OutCount(edges, v) > 0 <==> exists p :: p in edges && p.first == v
  {
    if edges != [] {
      var init := edges[..|edges| - 1];
      OutCountPositive(init, v);
      assert edges == init + [edges[|edges| - 1]];
    }
  }

  /** `AdjacentVertex` lists one successor per outgoing stored pair, and `x` is
      among them exactly when (v, x) is stored. */
  lemma {:induction false} SuccessorsSpec<V>(edges: seq<PairValue<V>>, v: V, x: V)
    ensures |Successors(edges, v)| == OutCount(edges, v)
    ensures x in Successors(edges, v) <==> PairValue(v, x) in edges
  {
    if edges != [] {
      var init := edges[..|edges| - 1];
      SuccessorsSpec(init, v, x);
      assert edges == init + [edges[|edges| - 1]];
    }
  }

  /** How many times `x` occurs in `vs`. */
  function Occurrences<V(==)>(vs: seq<V>, x: V): nat {
    if vs == [] then 0 else (if vs[0] == x then 1 else 0) + Occurrences(vs[1..], x)
  }

  lemma {:induction false} OccurrencesOnce<V>(vs: seq<V>, x: V)
    requires NoDuplicates(vs) && x in vs
    ensures Occurrences(vs, x) == 1
  {
    assert vs == [vs[0]] + vs[1..];
    NoDuplicatesCons(vs[0], vs[1..]);
    if vs[0] == x {
      OccurrencesNone(vs[1..], x);
    } else {
      OccurrencesOnce(vs[1..], x);
    }
  }

  lemma {:induction false} OccurrencesNone<V>(vs: seq<V>, x: V)
    requires x !in vs
    ensures Occurrences(vs, x) == 0
  {
    if vs != [] {
      OccurrencesNone(vs[1..], x);
    }
  }

  /** The sum, over the vertices `vs`, of their out-counts and in-counts. */
  function OutSum<V(==)>(vs: seq<V>, edges: seq<PairValue<V>>): nat {
    if vs == [] then 0 else OutCount(edges, vs[0]) + OutSum(vs[1..], edges)
  }

  function InSum<V(==)>(vs: seq<V>, edges: seq<PairValue<V>>): nat {
    if vs == [] then 0 else InCount(edges, vs[0]) + InSum(vs[1..], edges)
  }

  lemma {:induction false} SumsSnoc<V>(vs: seq<V>, edges: seq<PairValue<V>>, p: PairValue<V>)
    ensures OutSum(vs, edges + [p]) == OutSum(vs, edges) + Occurrences(vs, p.first)
    ensures InSum(vs, edges + [p]) == InSum(vs, edges) + Occurrences(vs, p.second)
  {
    if vs != [] {
      SumsSnoc(vs[1..], edges, p);
      assert (edges + [p])[..|edges|] == edges;
    }
  }

  /** Degree sum: when every stored pair joins two listed vertices, the
      out-counts add up to the number of stored pairs, and so do the in-counts. */
  lemma {:induction false} DegreeSum<V>(vs: seq<V>, edges: seq<PairValue<V>>)
    requires NoDuplicates(vs)
    requires forall k :: 0 <= k < |edges| ==> edges[k].first in vs && edges[k].second in vs
    ensures OutSum(vs, edges) == |edges| && InSum(vs, edges) == |edges|
  {
    if edges == [] {
      SumsOfNothing(vs);
    } else {
      var init := edges[..|edges| - 1];
      var p := edges[|edges| - 1];
      assert edges == init + [p];
      DegreeSum(vs, init);
      SumsSnoc(vs, init, p);
      OccurrencesOnce(vs, p.first);
      OccurrencesOnce(vs, p.second);
    }
  }

  lemma {:induction false} SumsOfNothing<V>(vs: seq<V>)
    ensures OutSum(vs, []) == 0 && InSum(vs, []) == 0
  {
    if vs != [] {
      SumsOfNothing(vs[1..]);
    }
  }

  /** The distinct elements of a list. */
  ghost function Elements<T>(s: seq<T>): set<T> {
    set x | x in s
  }

  lemma {:induction false} ElementsOfDistinct<T>(s: seq<T>)
    requires NoDuplicates(s)
    ensures |Elements(s)| == |s|
  {
    if s != [] {
      var t := s[1..];
      assert s == [s[0]] + t;
      NoDuplicatesCons(s[0], t);
      ElementsOfDistinct(t);
      assert Elements(s) == Elements(t) + {s[0]};
    }
  }

  lemma AddedNothing<V>(start: seq<V>, items: seq<Option<V>>)
    requires NoDuplicates(start)
    ensures Distinct(start + Values(items[..0])) == start
  {
    assert start + Values(items[..0]) == start;
    DistinctOfDistinct(start);
  }

  /** One more step of the bulk insertion loop appends the next element
      exactly when it is non-null and not yet a vertex. */
  lemma AddedOneMore<V>(start: seq<V>, items: seq<Option<V>>, i: nat)
    requires i < |items|
    ensures var d := Distinct(start + Values(items[..i]));
            Distinct(start + Values(items[..i + 1])) ==
              if items[i].Some? && items[i].value !in d then d + [items[i].value] else d
  {
    var seen := start + Values(items[..i]);
    assert items[..i + 1][..i] == items[..i];
    if items[i].Some? {
      var x := items[i].value;
      assert start + Values(items[..i + 1]) == seen + [x];
      assert (seen + [x])[..|seen|] == seen;
      DistinctMembers(seen, x);
    } else {
      assert start + Values(items[..i + 1]) == seen;
    }
  }

  lemma AddedAll<V>(start: seq<V>, items: seq<Option<V>>)
    requires NoDuplicates(start)
    ensures NoDuplicates(Distinct(start + Values(items)))
    ensures start <= Distinct(start + Values(items))
    ensures forall x :: x in Distinct(start + Values(items)) <==> x in start || Some(x) in items
  {
    DistinctNoDuplicates(start + Values(items));
    DistinctPrefix(start, Values(items));
    forall x ensures x in Distinct(start + Values(items)) <==> x in start || Some(x) in items {
      DistinctMembers(start + Values(items), x);
      ValuesMembers(items, x);
    }
  }

  /** One more step of the bulk deletion loop removes the next element when
      it is non-null. */
  lemma RemovedOneMore<V>(start: seq<V>, items: seq<Option<V>>, i: nat)
    requires NoDuplicates(start) && i < |items|
    ensures var w := Without(start, items[..i]);
            Without(start, items[..i + 1]) ==
              if items[i].Some? then Remove(w, items[i].value) else w
  {
    var w := Without(start, items[..i]);
    assert items[..i + 1] == items[..i] + [items[i]];
    WithoutTwice(start, items[..i], [items[i]]);
    WithoutNoDuplicates(start, items[..i]);
    if items[i].Some? {
      RemoveIsWithout(w, items[i].value);
    } else {
      WithoutNothing(w, [items[i]]);
    }
  }

  lemma RemovedAll<V>(start: seq<V>, items: seq<Option<V>>)
    requires NoDuplicates(start)
    ensures NoDuplicates(Without(start, items))
    ensures forall x :: x in Without(start, items) <==> x in start && Some(x) !in items
  {
    WithoutNoDuplicates(start, items);
    forall x ensures x in Without(start, items) <==> x in start && Some(x) !in items {
      WithoutMembers(start, items, x);
    }
  }

  class AbstractGraph<V(==), L> {
    /** `VertexSet`: the vertices in insertion order. */
    var vertexSet: seq<V>
    /** `EdgeSet`: the stored ordered pairs in insertion order. */
    var edgeSet: seq<PairValue<V>>
    /** `Weigths`: the label of every stored pair. */
    var weights: map<PairValue<V>, L>

    /** No vertex is listed twice, and the pairs in the edge list are exactly
        the keys of the label dictionary. */
    ghost predicate Valid()
      reads this
    {
      NoDuplicates(vertexSet) &&
      (forall p :: p in edgeSet ==> p in weights) &&
      (forall p :: p in weights ==> p in edgeSet)
    }

    constructor ()
      ensures Valid()
      ensures vertexSet == [] && edgeSet == [] && weights == map[]
    {
      vertexSet, edgeSet, weights := [], [], map[];
    }

    /** `AddVertex(TV vertex)`. */
    method AddVertex(vertex: Option<V>) returns (r: Result<bool>)
      requires Valid()
      modifies this
      ensures Valid()
      ensures edgeSet == old(edgeSet) && weights == old(weights)
      ensures vertex.None? ==> r == Err(ArgumentNullException) && vertexSet == old(vertexSet)
      ensures vertex.Some? && vertex.value in old(vertexSet) ==> r == Ok(false) && vertexSet == old(vertexSet)
      ensures vertex.Some? && vertex.value !in old(vertexSet) ==>
                r == Ok(true) && vertexSet == old(vertexSet) + [vertex.value]
    {
      if vertex.None? {
        return Err(ArgumentNullException);
      }
      if vertex.value in vertexSet {
        return Ok(false);
      }
      NoDuplicatesAppend(vertexSet, vertex.value);
      vertexSet := vertexSet + [vertex.value];
      return Ok(true);
    }

    /** `AddVertex(IEnumerable<TV> set)`: null elements and vertices already
        present are skipped; the others are appended in first-seen order. */
    method AddVertices(vertices: Option<seq<Option<V>>>) returns (r: Outcome)
      requires Valid()
      modifies this
      ensures Valid()
      ensures edgeSet == old(edgeSet) && weights == old(weights)
      ensures vertices.None? ==> r == Fail(ArgumentNullException) && vertexSet == old(vertexSet)
      ensures vertices.Some? ==> r == Pass && vertexSet == Distinct(old(vertexSet) + Values(vertices.value))
      ensures vertices.Some? ==> old(vertexSet) <= vertexSet
      ensures vertices.Some? ==> forall x :: x in vertexSet <==> x in old(vertexSet) || Some(x) in vertices.value
    {
      if vertices.None? {
        return Fail(ArgumentNullException);
      }
      var items := vertices.value;
      ghost var start := vertexSet;
      AddedNothing(start, items);
      var i := 0;
      while i < |items|
        invariant 0 <= i <= |items|
        invariant vertexSet == Distinct(start + Values(items[..i]))
        invariant edgeSet == old(edgeSet) && weights == old(weights)
      {
        AddedOneMore(start, items, i);
        var current := items[i];
        if current.Some? && current.value !in vertexSet {
          vertexSet := vertexSet + [current.value];
        }
        i := i + 1;
      }
      assert items[..i] == items;
      AddedAll(start, items);
      return Pass;
    }

    /** `DeleteVertex(IEnumerable<TV> set)`: every non-null element of `set`
        stops being a vertex; the other vertices keep their order. */
    method DeleteVertices(vertices: Option<seq<Option<V>>>) returns (r: Outcome)
      requires Valid()
      modifies this
      ensures Valid()
      ensures edgeSet == old(edgeSet) && weights == old(weights)
      ensures vertices.None? ==> r == Fail(ArgumentNullException) && vertexSet == old(vertexSet)
      ensures vertices.Some? ==> r == Pass && vertexSet == Without(old(vertexSet), vertices.value)
      ensures vertices.Some? ==> forall x :: x in vertexSet <==> x in old(vertexSet) && Some(x) !in vertices.value
    {
      if vertices.None? {
        return Fail(ArgumentNullException);
      }
      var items := vertices.value;
      ghost var start := vertexSet;
      WithoutNothing(start, items[..0]);
      var i := 0;
      while i < |items|
        invariant 0 <= i <= |items|
        invariant vertexSet == Without(start, items[..i])
        invariant edgeSet == old(edgeSet) && weights == old(weights)
      {
        RemovedOneMore(start, items, i);
        var current := items[i];
        if current.Some? {
          vertexSet := Remove(vertexSet, current.value);
        }
        i := i + 1;
      }
      assert items[..i] == items;
      RemovedAll(start, items);
      return Pass;
    }

    /** `DeleteVertex(TV vertex)`: the incident edges and labels stay. */
    method DeleteVertex(vertex: Option<V>) returns (r: Result<bool>)
      requires Valid()
      modifies this
      ensures Valid()
      ensures edgeSet == old(edgeSet) && weights == old(weights)
      ensures vertex.None? ==> r == Err(ArgumentNullException) && vertexSet == old(vertexSet)
      ensures vertex.Some? && vertex.value !in old(vertexSet) ==> r == Ok(false) && vertexSet == old(vertexSet)
      ensures vertex.Some? && vertex.value in old(vertexSet) ==>
                r == Ok(true) && vertexSet == Without(old(vertexSet), [vertex]) &&
                |vertexSet| == |old(vertexSet)| - 1
      ensures vertex.Some? ==> forall x :: x in vertexSet <==> x in old(vertexSet) && x != vertex.value
    {
      if vertex.None? {
        return Err(ArgumentNullException);
      }
      if vertex.value !in vertexSet {
        return Ok(false);
      }
      ghost var start := vertexSet;
      RemoveIsWithout(vertexSet, vertex.value);
      WithoutNoDuplicates(vertexSet, [vertex]);
      vertexSet := Remove(vertexSet, vertex.value);
      forall x ensures x in vertexSet <==> x in start && x != vertex.value {
        WithoutMembers(start, [vertex], x);
      }
      return Ok(true);
    }

    /** `GetVertexSet()`: the vertices, in insertion order. */
    method GetVertexSet() returns (r: seq<V>)
      ensures r == vertexSet
    {
      r := [];
      var i := 0;
      while i < |vertexSet|
        invariant 0 <= i <= |vertexSet|
        invariant r == vertexSet[..i]
      {
        assert vertexSet[..i + 1] == vertexSet[..i] + [vertexSet[i]];
        r := r + [vertexSet[i]];
        i := i + 1;
      }
      assert vertexSet[..i] == vertexSet;
    }

    /** `GetEdgeSet()`: the stored pairs, in insertion order. */
    method GetEdgeSet() returns (r: seq<PairValue<V>>)
      ensures r == edgeSet
    {
      r := [];
      var i := 0;
      while i < |edgeSet|
        invariant 0 <= i <= |edgeSet|
        invariant r == edgeSet[..i]
      {
        assert edgeSet[..i + 1] == edgeSet[..i] + [edgeSet[i]];
        r := r + [edgeSet[i]];
        i := i + 1;
      }
      assert edgeSet[..i] == edgeSet;
    }

    /** `VertexNumber()`: the length of the vertex list. */
    function VertexNumber(): (n: nat)
      reads this
      ensures n == |vertexSet|
    {
      |vertexSet|
    }

    /** With no vertex listed twice, `VertexNumber()` is the number of
        distinct vertices. */
    lemma VertexNumberCountsVertices()
      requires Valid()
      ensures VertexNumber() == |Elements(vertexSet)|
    {
      ElementsOfDistinct(vertexSet);
    }

    /** `EdgeNumber()`: the length of the edge list. */
    function EdgeNumber(): (n: nat)
      reads this
      ensures n == |edgeSet|
    {
      |edgeSet|
    }
  }
}
