/** `enum_iterator` and `enum_traits_default` (include/util/enum_traits.h):
    an iterator over the values of an enumeration, doing arithmetic on the
    underlying integer. Enumerators are represented by that integer. */
module EnumTraits {
  /** `enum_iterator<T>`: the current enumerator. The `++`, `--`, `+=` and
      `-=` operators, which update `value`, are functions giving the
      iterator after the update. */
  datatype EnumIterator = EnumIterator(value: int)
  {
    /** `operator *`. */
    function Deref(): int
    {
      value
    }

    /** `it + b`: the iterator `b` steps further. */
    function Plus(b: int): (r: EnumIterator)
      ensures r.Diff(this) == b
      ensures r.Minus(b) == this
    {
      EnumIterator(value + b)
    }

    /** `it - b`: the iterator `b` steps back. */
    function Minus(b: int): (r: EnumIterator)
      ensures this.Diff(r) == b
    {
      EnumIterator(value - b)
    }

    /** `it - other`: the distance in steps. */
    function Diff(other: EnumIterator): int
    {
      value - other.value
    }

    /** `it[b]`: the enumerator `b` steps further. */
    function At(b: int): (r: int)
      ensures r == Plus(b).Deref()
    {
      value + b
    }

    /** `++it`: the updated iterator, which is also the result. */
    function PreIncrement(): (r: EnumIterator)
      ensures r.Diff(this) == 1
    {
      EnumIterator(value + 1)
    }

    /** `--it`. */
    function PreDecrement(): (r: EnumIterator)
      ensures this.Diff(r) == 1
    {
      EnumIterator(value - 1)
    }

    /** `it++`: the updated iterator and the result, a copy of the old one. */
    function PostIncrement(): (r: (EnumIterator, EnumIterator))
      ensures r.0 == PreIncrement() && r.1 == this
    {
      (EnumIterator(value + 1), this)
    }

    /** `it--`. */
    function PostDecrement(): (r: (EnumIterator, EnumIterator))
      ensures r.0 == PreDecrement() && r.1 == this
    {
      (EnumIterator(value - 1), this)
    }

    /** `it += b`. */
    function AddAssign(b: int): (r: EnumIterator)
      ensures r == Plus(b)
    {
      EnumIterator(value + b)
    }

    /** `it -= b`. */
    function SubAssign(b: int): (r: EnumIterator)
      ensures r == Minus(b)
    {
      EnumIterator(value - b)
    }

    predicate Less(other: EnumIterator)
    {
      value < other.value
    }

    predicate LessEq(other: EnumIterator)
    {
      value <= other.value
    }

    predicate Greater(other: EnumIterator)
    {
      value > other.value
    }

    predicate GreaterEq(other: EnumIterator)
    {
      value >= other.value
    }
  }

  /** `operator +(ptrdiff_t a, T b)`. */
  function PlusLeft(a: int, b: int): (r: EnumIterator)
    ensures r == EnumIterator(b).Plus(a)
  {
    EnumIterator(a + b)
  }

  /** The comparison operators order iterators by distance: `a < b` exactly
      when `b` lies a positive number of steps after `a`, `==` exactly when
      the distance is 0. */
  lemma ComparisonsFollowDistance(a: EnumIterator, b: EnumIterator)
    ensures a.Less(b) <==> b.Diff(a) > 0
    ensures a.LessEq(b) <==> b.Diff(a) >= 0
    ensures a.Greater(b) <==> b.Less(a)
    ensures a.GreaterEq(b) <==> b.LessEq(a)
    ensures a == b <==> b.Diff(a) == 0
  {
  }

  /** `enum_traits_default<T, minimum, maximum>`. */
  datatype EnumRange = EnumRange(minimum: int, maximum: int)
  {
    /** `begin()`: the first enumerator. */
    function Begin(): (r: EnumIterator)
      ensures r.Deref() == minimum
    {
      EnumIterator(minimum)
    }

    /** `end()`: one past the last enumerator. */
    function End(): (r: EnumIterator)
      ensures r.Deref() == maximum + 1
      ensures r.Minus(1).Deref() == maximum
    {
      EnumIterator(maximum).Plus(1)
    }

    /** `size()`: `end() - begin()`. */
    function Size(): (r: int)
      ensures r == maximum - minimum + 1
    {
      End().Diff(Begin())
    }

    /** The enumerators from `begin()` up to `end()`, as a range-`for` visits them. */
    function Values(): (r: seq<int>)
      requires minimum <= maximum + 1
      ensures |r| == Size()
      ensures forall k :: 0 <= k < |r| ==> r[k] == Begin().At(k)
    {
      seq(Size(), k => minimum + k)
    }
  }
}
