/** The generic fixed array of N > 0 elements, held inline in `elems`. */
module FixedArrays {
  import opened Errors
  import Comparisons

  class FixedArray<T(0)> {
    /** The compile-time size. */
    const N: nat
    /** The N elements; the array itself is never replaced, only its cells. */
    const elems: array<T>

    ghost predicate Valid()
    {
      elems.Length == N && N > 0
    }

    /** Default construction: N elements, each its type's default value. */
    constructor (n: nat)
      requires n > 0
      ensures Valid() && N == n && fresh(elems)
    {
      N := n;
      elems := new T[n];
    }

    /** `size()`: the number of elements. */
    function Size(): (n: nat)
      requires Valid()
      ensures n == elems.Length
    {
      N
    }

    /** `max_size()`: the same as `size()`. */
    function MaxSize(): (n: nat)
      requires Valid()
      ensures n == Size()
    {
      N
    }

    /** `empty()`: never true for N > 0. */
    function Empty(): (b: bool)
      requires Valid()
      ensures b <==> Size() == 0
    {
      false
    }

    /** The range begin()..end(): the elements in index order. */
    function Elements(): (s: seq<T>)
      requires Valid()
      reads elems
      ensures |s| == Size()
      ensures forall i :: 0 <= i < |s| ==> At(i) == Ok(s[i])
    {
      elems[..]
    }

    /** Reading through `operator[]` or `at`: the range check, then element i. */
    function At(i: nat): (r: Result<T>)
      requires Valid()
      reads elems
      ensures r.Ok? <==> i < N
      ensures r.Ok? ==> r.value == elems[i]
      ensures r.Err? ==> r.error == OutOfRange(i, N)
    {
      match RangeCheck(i, N)
      case Fail(e) => Err(e)
      case Pass => Ok(elems[i])
    }

    /** Writing v through the reference that `operator[]` or `at` returns:
        the same range check; on success only element i changes. */
    method SetAt(i: nat, v: T) returns (o: Outcome)
      requires Valid()
      modifies elems
      ensures o.Pass? <==> i < N
      ensures o.Fail? ==> o.error == OutOfRange(i, N) && elems[..] == old(elems[..])
      ensures o.Pass? ==> elems[..] == old(elems[..])[i := v]
    {
      o := RangeCheck(i, N);
      if o.Pass? {
        elems[i] := v;
      }
    }

    /** `front()`: element 0, unchecked, which is always in range. */
    function Front(): (x: T)
      requires Valid()
      reads elems
      ensures At(0) == Ok(x)
    {
      elems[0]
    }

    /** `back()`: element N-1, unchecked, which is always in range. */
    function Back(): (x: T)
      requires Valid()
      reads elems
      ensures At(N - 1) == Ok(x)
    {
      elems[N - 1]
    }

    /** Writing v through the reference that `front()` returns. */
    method SetFront(v: T)
      requires Valid()
      modifies elems
      ensures elems[..] == old(elems[..])[0 := v]
    {
      elems[0] := v;
    }

    /** Writing v through the reference that `back()` returns. */
    method SetBack(v: T)
      requires Valid()
      modifies elems
      ensures elems[..] == old(elems[..])[N - 1 := v]
    {
      elems[N - 1] := v;
    }

    /** `fill(v)` (`std::fill_n` over all N elements). */
    method Fill(v: T)
      requires Valid()
      modifies elems
      ensures forall i :: 0 <= i < N ==> elems[i] == v
    {
      forall i | 0 <= i < N {
        elems[i] := v;
      }
    }

    /** `assign(v)`, which is `fill(v)`. */
    method Assign(v: T)
      requires Valid()
      modifies elems
      ensures forall i :: 0 <= i < N ==> elems[i] == v
    {
      Fill(v);
    }

    /** `swap(y)`: exchanges the elements index by index, so this array
        gets y's old elements and y gets this array's. */
    method Swap(y: FixedArray<T>)
      requires Valid() && y.Valid() && y.N == N
      modifies elems, y.elems
      ensures elems[..] == old(y.elems[..])
      ensures y.elems[..] == old(elems[..])
    {
      var i := 0;
      while i < N
        invariant 0 <= i <= N
        invariant forall k :: 0 <= k < i ==> elems[k] == old(y.elems[k]) && y.elems[k] == old(elems[k])
        invariant forall k :: i <= k < N ==> elems[k] == old(elems[k]) && y.elems[k] == old(y.elems[k])
      {
        var t := elems[i];
        elems[i] := y.elems[i];
        y.elems[i] := t;
        i := i + 1;
      }
    }

    /** `operator=` from an array of the same size (`std::copy`): this array
        takes rhs's elements and rhs is left as it was. */
    method CopyFrom(rhs: FixedArray<T>)
      requires Valid() && rhs.Valid() && rhs.N == N
      modifies elems
      ensures elems[..] == old(rhs.elems[..])
      ensures rhs.elems[..] == old(rhs.elems[..])
    {
      forall i | 0 <= i < N {
        elems[i] := rhs.elems[i];
      }
    }
  }

  /** The global `swap(x, y)`, which is `x.swap(y)`. */
  method Swap<T(0)>(x: FixedArray<T>, y: FixedArray<T>)
    requires x.Valid() && y.Valid() && x.N == y.N
    modifies x.elems, y.elems
    ensures x.elems[..] == old(y.elems[..])
    ensures y.elems[..] == old(x.elems[..])
  {
    x.Swap(y);
  }

  /** `x == y` holds exactly when no index tells the two arrays apart:
      every checked read gives the same element or the same error. */
  lemma EqualIffSameReads<T(0)>(x: FixedArray<T>, y: FixedArray<T>)
    requires x.Valid() && y.Valid() && x.N == y.N
    ensures Comparisons.Equal(x.Elements(), y.Elements()) <==> forall i: nat :: x.At(i) == y.At(i)
  {
    if Comparisons.Equal(x.Elements(), y.Elements()) {
      forall i: nat ensures x.At(i) == y.At(i) {
        if i < x.N {
          assert x.Elements()[i] == y.Elements()[i];
        }
      }
    }
  }
}
