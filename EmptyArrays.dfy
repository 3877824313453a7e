/** The zero-size specialization: no storage, and no index is ever valid. */
module EmptyArrays {
  import opened Errors
  import Comparisons

  class EmptyArray<T> {

    constructor ()
    {
    }

    /** `size()`: always 0. */
    function Size(): (n: nat)
      ensures n == |Elements()|
    {
      0
    }

    /** `max_size()`: the same as `size()`. */
    function MaxSize(): (n: nat)
      ensures n == Size()
    {
      0
    }

    /** `empty()`: always true. */
    function Empty(): (b: bool)
      ensures b <==> Size() == 0
    {
      true
    }

    /** The range begin()..end(): no elements. */
    function Elements(): (s: seq<T>)
      ensures |s| == 0
    {
      []
    }

    /** The position `begin()` stands for: already past the last element. */
    function Begin(): (b: nat)
      ensures b == |Elements()|
    {
      0
    }

    /** `end()`, which is `begin()`: the range is empty. */
    function End(): (e: nat)
      ensures e == Begin() && e - Begin() == |Elements()|
    {
      Begin()
    }

    /** Reading through `operator[]` or `at`: fails whatever the index. */
    function At(i: nat): (r: Result<T>)
      ensures r == Err(EmptyAccess)
    {
      Err(EmptyAccess)
    }

    /** Writing through `operator[]` or `at`: fails whatever the index, and
        there is nothing to change. */
    method SetAt(i: nat, v: T) returns (o: Outcome)
      ensures o == Fail(EmptyAccess)
    {
      o := Fail(EmptyAccess);
    }

    /** `front()`: fails. */
    function Front(): (r: Result<T>)
      ensures r == Err(EmptyAccess)
    {
      Err(EmptyAccess)
    }

    /** `back()`: fails. */
    function Back(): (r: Result<T>)
      ensures r == Err(EmptyAccess)
    {
      Err(EmptyAccess)
    }

    /** `fill(v)`: nothing to write. */
    method Fill(v: T)
      ensures unchanged(this)
    {
    }

    /** `assign(v)`, which is `fill(v)`. */
    method Assign(v: T)
      ensures unchanged(this)
    {
      Fill(v);
    }

    /** `swap(y)`: nothing to exchange. */
    method Swap(y: EmptyArray<T>)
      ensures unchanged(this, y)
    {
    }

    /** `operator=` from another zero-size array: nothing to copy. */
    method CopyFrom(rhs: EmptyArray<T>)
      ensures unchanged(this, rhs)
    {
    }
  }

  /** The global `swap(x, y)`, which is `x.swap(y)`. */
  method Swap<T>(x: EmptyArray<T>, y: EmptyArray<T>)
    ensures unchanged(x, y)
  {
    x.Swap(y);
  }

  /** Two zero-size arrays always compare equal and neither is below the other. */
  lemma EmptyArraysCompareEqual<T>(x: EmptyArray<T>, y: EmptyArray<T>, less: (T, T) -> bool)
    ensures Comparisons.Equal(x.Elements(), y.Elements())
    ensures !Comparisons.Less(x.Elements(), y.Elements(), less)
    ensures Comparisons.LessEq(x.Elements(), y.Elements(), less)
  {
  }
}
