/** The behaviour of .NET's `List<T>` that the graph library relies on
    (`Contains`, `Add` at the end, `Remove` of the first occurrence), and the
    reference definitions the bulk vertex operations are proved against. */
module Lists {
  import opened Wrappers

  /** No element occurs twice. */
  ghost predicate NoDuplicates<T>(s: seq<T>) {
    forall i, j :: 0 <= i < j < |s| ==> s[i] != s[j]
  }

  lemma NoDuplicatesAppend<T>(s: seq<T>, x: T)
    requires NoDuplicates(s) && x !in s
    ensures NoDuplicates(s + [x])
  {
    forall i, j | 0 <= i < j < |s + [x]| ensures (s + [x])[i] != (s + [x])[j] {
      if j == |s| {
        assert (s + [x])[i] == s[i];
      }
    }
  }

  lemma NoDuplicatesCons<T>(h: T, t: seq<T>)
    ensures NoDuplicates([h] + t) <==> h !in t && NoDuplicates(t)
  {
    var s := [h] + t;
    if h !in t && NoDuplicates(t) {
      forall i, j | 0 <= i < j < |s| ensures s[i] != s[j] {
        assert s[j] == t[j - 1];
        if i > 0 { assert s[i] == t[i - 1]; }
      }
    }
    if NoDuplicates(s) {
      forall i, j | 0 <= i < j < |t| ensures t[i] != t[j] {
        assert t[i] == s[i + 1] && t[j] == s[j + 1];
      }
      forall k | 0 <= k < |t| ensures t[k] != h {
        assert t[k] == s[k + 1] && h == s[0];
      }
    }
  }

  /** `List<T>.IndexOf(x)`: the position of the first occurrence of `x`, or -1. */
  function IndexOf<T(==)>(s: seq<T>, x: T): (i: int)
    ensures -1 <= i < |s|
    ensures 0 <= i ==> s[i] == x && x !in s[..i]
    ensures i == -1 <==> x !in s
  {
    if s == [] then -1
    else if s[0] == x then 0
    else
      var j := IndexOf(s[1..], x);
      if j == -1 then -1
      else
        assert s[..j + 1] == [s[0]] + s[1..][..j];
        j + 1
  }

  /** `List<T>.Remove(x)`: deletes the first occurrence of `x`, if there is one,
      and keeps every other element in its order. */
  function Remove<T(==)>(s: seq<T>, x: T): (r: seq<T>)
    ensures x in s ==> r == s[..IndexOf(s, x)] + s[IndexOf(s, x) + 1..] && |r| == |s| - 1
    ensures x !in s ==> r == s
  {
    var i := IndexOf(s, x);
    if i == -1 then s
    else s[..i] + s[i + 1..]
  }

  /** `Remove` takes out exactly one copy of `x`, if there is one. */
  lemma RemoveMultiset<T>(s: seq<T>, x: T)
    ensures multiset(Remove(s, x)) == multiset(s) - multiset{x}
  {
    var i := IndexOf(s, x);
    if i != -1 {
      assert s == s[..i] + [s[i]] + s[i + 1..];
    }
  }

  lemma RemoveCons<T>(h: T, t: seq<T>, x: T)
    ensures Remove([h] + t, x) == if h == x then t else [h] + Remove(t, x)
  {
    var s := [h] + t;
    assert s[1..] == t;
    if h != x {
      var j := IndexOf(t, x);
      if j != -1 {
        assert s[..j + 1] + s[j + 2..] == [h] + (t[..j] + t[j + 1..]);
      }
    }
  }

  /** In a duplicate-free list, removing `x` is the same as filtering it out. */
  lemma {:induction false} RemoveIsWithout<T>(s: seq<T>, x: T)
    requires NoDuplicates(s)
    ensures Remove(s, x) == Without(s, [Some(x)])
  {
    if s != [] {
      var h, t := s[0], s[1..];
      assert s == [h] + t;
      NoDuplicatesCons(h, t);
      RemoveCons(h, t, x);
      WithoutCons(h, t, [Some(x)]);
      if h == x {
        forall k | 0 <= k < |t| ensures Some(t[k]) !in [Some(x)] {
          assert t[k] in t;
        }
        WithoutNothing(t, [Some(x)]);
      } else {
        RemoveIsWithout(t, x);
        assert Some(h) !in [Some(x)];
      }
    }
  }

  /** The elements of `s` whose value is not named (non-null) in `items`, in order. */
  function Without<T(==)>(s: seq<T>, items: seq<Option<T>>): seq<T> {
    if s == [] then []
    else (if Some(s[0]) in items then [] else [s[0]]) + Without(s[1..], items)
  }

  lemma WithoutCons<T>(h: T, t: seq<T>, items: seq<Option<T>>)
    ensures Without([h] + t, items) == (if Some(h) in items then [] else [h]) + Without(t, items)
  {
    assert ([h] + t)[1..] == t;
  }

  lemma {:induction false} WithoutMembers<T>(s: seq<T>, items: seq<Option<T>>, x: T)
    ensures x in Without(s, items) <==> x in s && Some(x) !in items
  {
    if s != [] {
      WithoutMembers(s[1..], items, x);
      assert s == [s[0]] + s[1..];
    }
  }

  lemma {:induction false} WithoutNoDuplicates<T>(s: seq<T>, items: seq<Option<T>>)
    requires NoDuplicates(s)
    ensures NoDuplicates(Without(s, items))
  {
    if s != [] {
      assert s == [s[0]] + s[1..];
      NoDuplicatesCons(s[0], s[1..]);
      WithoutNoDuplicates(s[1..], items);
      WithoutMembers(s[1..], items, s[0]);
      NoDuplicatesCons(s[0], Without(s[1..], items));
    }
  }

  lemma {:induction false} WithoutNothing<T>(s: seq<T>, items: seq<Option<T>>)
    requires forall k :: 0 <= k < |s| ==> Some(s[k]) !in items
    ensures Without(s, items) == s
  {
    if s != [] {
      WithoutNothing(s[1..], items);
      assert s == [s[0]] + s[1..];
    }
  }

  lemma {:induction false} WithoutTwice<T>(s: seq<T>, a: seq<Option<T>>, b: seq<Option<T>>)
    ensures Without(Without(s, a), b) == Without(s, a + b)
  {
    if s != [] {
      WithoutTwice(s[1..], a, b);
      var head := if Some(s[0]) in a then [] else [s[0]];
      var w := Without(s, a);
      assert w == head + Without(s[1..], a);
      if head == [] {
        assert w == Without(s[1..], a);
      } else {
        assert w[0] == s[0] && w[1..] == Without(s[1..], a);
      }
    }
  }

  /** The non-null elements of `items`, in order. */
  function Values<T>(items: seq<Option<T>>): seq<T> {
    if items == [] then []
    else
      var last := items[|items| - 1];
      Values(items[..|items| - 1]) + (if last.Some? then [last.value] else [])
  }

  lemma {:induction false} ValuesMembers<T>(items: seq<Option<T>>, x: T)
    ensures x in Values(items) <==> Some(x) in items
  {
    if items != [] {
      var init := items[..|items| - 1];
      ValuesMembers(init, x);
      assert items == init + [items[|items| - 1]];
    }
  }

  /** The first occurrence of every element of `s`, in the order they are first seen. */
  function Distinct<T(==)>(s: seq<T>): seq<T> {
    if s == [] then []
    else
      var init := s[..|s| - 1];
      var last := s[|s| - 1];
      if last in init then Distinct(init) else Distinct(init) + [last]
  }

  lemma {:induction false} DistinctMembers<T>(s: seq<T>, x: T)
    ensures x in Distinct(s) <==> x in s
  {
    if s != [] {
      var init := s[..|s| - 1];
      DistinctMembers(init, x);
      assert s == init + [s[|s| - 1]];
    }
  }

  lemma {:induction false} DistinctNoDuplicates<T>(s: seq<T>)
    ensures NoDuplicates(Distinct(s))
  {
    if s != [] {
      var init := s[..|s| - 1];
      var last := s[|s| - 1];
      DistinctNoDuplicates(init);
      if last !in init {
        DistinctMembers(init, last);
        NoDuplicatesAppend(Distinct(init), last);
      }
    }
  }

  /** A duplicate-free list is its own set of first occurrences. */
  lemma {:induction false} DistinctOfDistinct<T>(s: seq<T>)
    requires NoDuplicates(s)
    ensures Distinct(s) == s
  {
    if s != [] {
      var init := s[..|s| - 1];
      assert NoDuplicates(init) by {
        forall i, j | 0 <= i < j < |init| ensures init[i] != init[j] {
          assert init[i] == s[i] && init[j] == s[j];
        }
      }
      DistinctOfDistinct(init);
      assert s[|s| - 1] !in init by {
        forall k | 0 <= k < |init| ensures init[k] != s[|s| - 1] {
          assert init[k] == s[k];
        }
      }
      assert s == init + [s[|s| - 1]];
    }
  }

  /** Appending to a duplicate-free list and keeping first occurrences leaves
      the original list in front. */
  lemma {:induction false} DistinctPrefix<T>(a: seq<T>, b: seq<T>)
    requires NoDuplicates(a)
    ensures a <= Distinct(a + b)
  {
    if b == [] {
      assert a + b == a;
      DistinctOfDistinct(a);
    } else {
      var init := b[..|b| - 1];
      DistinctPrefix(a, init);
      assert (a + b)[..|a + b| - 1] == a + init;
    }
  }
}
