/** The character specialization: a fixed buffer of N > 0 bytes that starts
    zeroed and can be written as a bounded, NUL-terminated string. */
module CharBuffers {
  import opened Errors
  import opened CStrings

  class CharBuffer {
    /** The compile-time size. */
    const N: nat
    /** The N bytes; the array itself is never replaced, only its cells. */
    const elems: array<char>

    ghost predicate Valid()
    {
      elems.Length == N && N > 0
    }

    /** The constructor zeroes all N bytes (`memset`), so the buffer reads
        as the empty string. */
    constructor (n: nat)
      requires n > 0
      ensures Valid() && N == n && fresh(elems)
      ensures forall i :: 0 <= i < N ==> elems[i] == NUL
      ensures GetString() == ""
    {
      N := n;
      elems := new char[n](_ => NUL);
      new;
      StrNLenAt(elems[..], 0);
    }

    /** `size()`: the number of bytes. */
    function Size(): (n: nat)
      requires Valid()
      ensures n == elems.Length
    {
      N
    }

    /** `max_size()`: the same as `size()`. */
    function MaxSize(): (n: nat)
      requires Valid()
      ensures n == Size()
    {
      N
    }

    /** `empty()`: never true for N > 0. */
    function Empty(): (b: bool)
      requires Valid()
      ensures b <==> Size() == 0
    {
      false
    }

    /** The range begin()..end(): the bytes in index order. */
    function Elements(): (s: seq<char>)
      requires Valid()
      reads elems
      ensures |s| == Size()
      ensures forall i :: 0 <= i < |s| ==> At(i) == Ok(s[i])
    {
      elems[..]
    }

    /** Reading through `operator[]` or `at`: the range check, then byte i. */
    function At(i: nat): (r: Result<char>)
      requires Valid()
      reads elems
      ensures r.Ok? <==> i < N
      ensures r.Ok? ==> r.value == elems[i]
      ensures r.Err? ==> r.error == OutOfRange(i, N)
    {
      match RangeCheck(i, N)
      case Fail(e) => Err(e)
      case Pass => Ok(elems[i])
    }

    /** Writing c through the reference that `operator[]` or `at` returns:
        the same range check; on success only byte i changes. */
    method SetAt(i: nat, c: char) returns (o: Outcome)
      requires Valid()
      modifies elems
      ensures o.Pass? <==> i < N
      ensures o.Fail? ==> o.error == OutOfRange(i, N) && elems[..] == old(elems[..])
      ensures o.Pass? ==> elems[..] == old(elems[..])[i := c]
    {
      o := RangeCheck(i, N);
      if o.Pass? {
        elems[i] := c;
      }
    }

    /** `front()`: byte 0, unchecked, which is always in range. */
    function Front(): (c: char)
      requires Valid()
      reads elems
      ensures At(0) == Ok(c)
    {
      elems[0]
    }

    /** `back()`: byte N-1, unchecked, which is always in range. */
    function Back(): (c: char)
      requires Valid()
      reads elems
      ensures At(N - 1) == Ok(c)
    {
      elems[N - 1]
    }

    /** Writing c through the reference that `front()` returns. */
    method SetFront(c: char)
      requires Valid()
      modifies elems
      ensures elems[..] == old(elems[..])[0 := c]
    {
      elems[0] := c;
    }

    /** Writing c through the reference that `back()` returns. */
    method SetBack(c: char)
      requires Valid()
      modifies elems
      ensures elems[..] == old(elems[..])[N - 1 := c]
    {
      elems[N - 1] := c;
    }

    /** `fill(c)` (`std::fill_n` over all N bytes). */
    method Fill(c: char)
      requires Valid()
      modifies elems
      ensures forall i :: 0 <= i < N ==> elems[i] == c
    {
      forall i | 0 <= i < N {
        elems[i] := c;
      }
    }

    /** `assign(c)`, which is `fill(c)`. */
    method Assign(c: char)
      requires Valid()
      modifies elems
      ensures forall i :: 0 <= i < N ==> elems[i] == c
    {
      Fill(c);
    }

    /** `swap(y)`: exchanges the bytes index by index. */
    method Swap(y: CharBuffer)
      requires Valid() && y.Valid() && y.N == N
      modifies elems, y.elems
      ensures elems[..] == old(y.elems[..])
      ensures y.elems[..] == old(elems[..])
    {
      var i := 0;
      while i < N
        invariant 0 <= i <= N
        invariant forall k :: 0 <= k < i ==> elems[k] == old(y.elems[k]) && y.elems[k] == old(elems[k])
        invariant forall k :: i <= k < N ==> elems[k] == old(elems[k]) && y.elems[k] == old(y.elems[k])
      {
        var t := elems[i];
        elems[i] := y.elems[i];
        y.elems[i] := t;
        i := i + 1;
      }
    }

    /** `operator=` from a buffer of the same size (`std::copy`). */
    method CopyFrom(rhs: CharBuffer)
      requires Valid() && rhs.Valid() && rhs.N == N
      modifies elems
      ensures elems[..] == old(rhs.elems[..])
      ensures rhs.elems[..] == old(rhs.elems[..])
    {
      forall i | 0 <= i < N {
        elems[i] := rhs.elems[i];
      }
    }

    /** `vsnprintf(elems + at, size, ...)` whose formatted output is `out`:
        at most size - 1 bytes of out, then a NUL, and nothing else. */
    method WriteBounded(at: nat, size: nat, out: seq<char>)
      requires Valid() && at + size <= N
      modifies elems
      ensures elems[..] == BoundedWrite(old(elems[..]), at, size, out)
    {
      if size == 0 {
        return;
      }
      var k := Min(|out|, size - 1);
      forall j | at <= j < at + k {
        elems[j] := out[j - at];
      }
      elems[at + k] := NUL;
    }

    /** `formatstring(fmt, ...)`; `out` is the formatted output, None when
        fmt is null. */
    method FormatString(out: Option<seq<char>>)
      requires Valid()
      modifies elems
      ensures elems[..] == AfterFormat(old(elems[..]), out)
    {
      if out.None? {
        elems[N - 1] := NUL;
        return;
      }
      WriteBounded(0, N, out.value);
      elems[N - 1] := NUL;
    }

    /** `appendformatstring(fmt, ...)`; `out` as for FormatString. */
    method AppendFormatString(out: Option<seq<char>>)
      requires Valid()
      modifies elems
      ensures elems[..] == AfterAppendFormat(old(elems[..]), out)
    {
      if out.None? {
        elems[N - 1] := NUL;
        return;
      }
      var length := StrNLen(elems[..]);
      if length >= N {
        elems[N - 1] := NUL;
        return;
      }
      WriteBounded(length, N - length, out.value);
      elems[N - 1] := NUL;
    }

    /** `appendstring(str)`; None when str is null. Otherwise the same as
        `appendformatstring("%s", str)`, whose output is str up to its first NUL. */
    method AppendString(str: Option<seq<char>>)
      requires Valid()
      modifies elems
      ensures elems[..] == AfterAppendString(old(elems[..]), str)
    {
      if str.None? {
        elems[N - 1] := NUL;
        return;
      }
      AppendFormatString(Some(str.value[..StrNLen(str.value)]));
    }

    /** `getstring()`: the empty string unless the last byte is a terminator;
        else the bytes before the first NUL. */
    function GetString(): (r: string)
      requires Valid()
      reads elems
      ensures elems[N - 1] != NUL ==> r == ""
      ensures elems[N - 1] == NUL ==>
        |r| < N && r == elems[..|r|] && elems[|r|] == NUL && NulFree(r)
    {
      StringView(elems[..])
    }
  }

  /** The global `swap(x, y)`, which is `x.swap(y)`. */
  method Swap(x: CharBuffer, y: CharBuffer)
    requires x.Valid() && y.Valid() && x.N == y.N
    modifies x.elems, y.elems
    ensures x.elems[..] == old(y.elems[..])
    ensures y.elems[..] == old(x.elems[..])
  {
    x.Swap(y);
  }
}
