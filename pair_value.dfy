/** `PairValue<T>`: the immutable, order-sensitive pair of vertices that keys
    every stored edge and its label. */
module Pairs {
  import opened Wrappers

  /** The values of a .NET `int`. */
  type Int32 = x: int | -0x8000_0000 <= x < 0x8000_0000

  /** Two's-complement wrap-around of an `int` sum (C#'s default unchecked arithmetic). */
  function WrapInt32(x: int): (r: Int32)
    ensures (r - x) % 0x1_0000_0000 == 0
    ensures -0x8000_0000 <= x < 0x8000_0000 ==> r == x
  {
    (x + 0x8000_0000) % 0x1_0000_0000 - 0x8000_0000
  }

  /** A reference that `Equals(object o)` may be handed: null, a pair of the
      same type, or an object of any other runtime type. */
  datatype Object<T> = Null | Boxed(pair: PairValue<T>) | Other

  datatype PairValue<T(==)> = PairValue(first: T, second: T) {

    function GetFirst(): T { first }

    function GetSecond(): T { second }

    /** True iff `value` is one of the two components; a null `value` is
        neither. */
    predicate Contains(value: Option<T>) {
      value.Some? && (first == value.value || second == value.value)
    }

    /** Structural, order-sensitive equality; false for null and for objects
        of another type. */
    predicate Equals(o: Object<T>) {
      o.Boxed? && o.pair.first == first && o.pair.second == second
    }

    /** The sum of the component hashes, wrapped to 32 bits; `hash` stands for
        `T.GetHashCode`. */
    function GetHashCode(hash: T -> Int32): Int32 {
      WrapInt32(hash(first) + hash(second))
    }

    /** The same two vertices in the other order (the undirected graph's
        returning pair). */
    function Swap(): PairValue<T> {
      PairValue(second, first)
    }

    /** Both components are the same vertex. */
    predicate IsLoop() {
      first == second
    }
  }

  /** The constructor `PairValue(t1, t2)`: null components are refused. */
  function NewPairValue<T(==)>(t1: Option<T>, t2: Option<T>): (r: Result<PairValue<T>>)
    ensures r.Err? <==> t1.None? || t2.None?
    ensures r.Err? ==> r.error == ArgumentNullException
    ensures r.Ok? ==> r.value.GetFirst() == t1.value && r.value.GetSecond() == t2.value
  {
    if t1.None? || t2.None? then Err(ArgumentNullException)
    else Ok(PairValue(t1.value, t2.value))
  }

  /** Swapping is its own inverse, so it is one-to-one. */
  lemma SwapInvolution<T>(p: PairValue<T>, q: PairValue<T>)
    ensures p.Swap().Swap() == p
    ensures p.Swap() == q.Swap() ==> p == q
    ensures p.Swap().IsLoop() == p.IsLoop()
    ensures p.IsLoop() <==> p.Swap() == p
  {
  }

  lemma ContainsBothComponents<T>(p: PairValue<T>, x: T)
    ensures p.Contains(Some(p.GetFirst())) && p.Contains(Some(p.GetSecond()))
    ensures !p.Contains(None)
    ensures p.Contains(Some(x)) <==> p.Swap().Contains(Some(x))
    ensures p.Contains(Some(x)) <==> x in {p.GetFirst(), p.GetSecond()}
  {
  }

  /** `Equals` coincides with value equality of pairs. */
  lemma EqualsIsValueEquality<T>(p: PairValue<T>, q: PairValue<T>)
    ensures p.Equals(Boxed(q)) <==> p == q
  {
  }

  lemma EqualsRejectsNonPairs<T>(p: PairValue<T>)
    ensures !p.Equals(Null) && !p.Equals(Other)
  {
  }

  /** (a, b) and (b, a) are equal only when a = b. */
  lemma EqualsIsOrderSensitive<T>(a: T, b: T)
    ensures PairValue(a, b).Equals(Boxed(PairValue(b, a))) <==> a == b
  {
  }

  lemma EqualsIsEquivalence<T>(p: PairValue<T>, q: PairValue<T>, s: PairValue<T>)
    ensures p.Equals(Boxed(p))
    ensures p.Equals(Boxed(q)) ==> q.Equals(Boxed(p))
    ensures p.Equals(Boxed(q)) && q.Equals(Boxed(s)) ==> p.Equals(Boxed(s))
  {
  }

  /** Equal pairs hash equally, and so do a pair and its swap. */
  lemma HashAgreesWithEquals<T>(p: PairValue<T>, q: PairValue<T>, hash: T -> Int32)
    ensures p.Equals(Boxed(q)) ==> p.GetHashCode(hash) == q.GetHashCode(hash)
    ensures p.GetHashCode(hash) == p.Swap().GetHashCode(hash)
  {
  }

  /** When the sum of the component hashes fits an `int` the hash is that sum. */
  lemma HashIsSumWithoutOverflow<T>(p: PairValue<T>, hash: T -> Int32)
    requires -0x8000_0000 <= hash(p.first) + hash(p.second) < 0x8000_0000
    ensures p.GetHashCode(hash) == hash(p.GetFirst()) + hash(p.GetSecond())
  {
  }
}
