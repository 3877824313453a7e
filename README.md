# fixedarray: a verified model

This project models `zz_engine::fixedarray<T,N>` from `zz_core/zz_fixedarray.h`. It is a container that holds exactly N elements inline and comes in three variants:

- **`FixedArrays.FixedArray<T>`** is the generic template for N > 0. It holds a `const` array `elems` of length N. Element reads (`At`) and writes (`SetAt`) run the shared range check `Errors.RangeCheck` first. An index `i >= N` gives `OutOfRange(i, N)` and changes nothing. `front`/`back` are unchecked and always in range. `fill`/`assign` broadcast one value. `swap` exchanges elements index by index, with the source's loop. `operator=` copies element-wise.
- **`CharBuffers.CharBuffer`** is the `char` specialization. Its constructor zeroes all N bytes. It adds the bounded string API:
  - `formatstring` and `appendformatstring` take the formatted output as a parameter, which is `None` for a null format.
  - `appendstring` takes its argument the same way, `None` for a null pointer.
  - `getstring` returns the string the buffer holds.

  All string semantics are stated once, as functions on the buffer's contents, in `CStrings`. These are `strnlen` (`StrNLen`), the `vsnprintf` truncation rule (`BoundedWrite`), the effect of each string operation (`AfterFormat`, `AfterAppendFormat`, `AfterAppendString`) and the `getstring` view (`StringView`). Each method's postcondition equates the new contents with the matching function of the old contents. The lemmas beside those functions then prove the promised properties:
  - the terminator is always at N-1;
  - the output is cut to the room that is left;
  - earlier bytes are kept;
  - two appends accumulate;
  - a full buffer is left alone.
- **`EmptyArrays.EmptyArray<T>`** is the zero-size specialization. It has no storage. Size and max size are 0 and `empty()` is true. `begin()` equals `end()`. Every element access fails with `EmptyAccess`, whatever the index. `Fill`, `Assign`, `Swap`, `CopyFrom` and the global `Swap` do nothing: they have no `modifies` clause, and each states `unchanged` of the objects it is given.
- **`Comparisons`** holds the free operators, over the two operands' element sequences in index order. `Equal` is `std::equal` and `LexLess` is `std::lexicographical_compare`. The element order is the parameter `less`. The other four operators are derived from these two as in the source. The lemmas show that:
  - `<` is decided by the first position whose elements are not equivalent;
  - `<` is irreflexive and asymmetric when `less` is asymmetric;
  - under a strict total order, `<=` means "below or equal" and `<`, `==`, `>` are exclusive and exhaustive.

The size N is a `const` field. Where the source requires two operands of the same size as a compile-time type constraint, the model states it as `requires x.N == y.N`.

## Model

| member | source | states |
|---|---|---|
| `Errors.RangeCheck` | zz_core/zz_fixedarray.h:118-129 | the check fails exactly when i >= N, and the failure carries i and N |
| `Comparisons.Equal` | zz_core/zz_fixedarray.h:421-424 | `x == y` exactly when `x[i] == y[i]` at every index |
| `Comparisons.LexLess` | zz_core/zz_fixedarray.h:427 | nothing is below an empty range, and an empty range is below every non-empty one |
| `Comparisons.LexLessIff` | zz_core/zz_fixedarray.h:425-428 | lexicographical_compare on same-size operands holds exactly when some position k has `less(x[k], y[k])` and all earlier positions are equivalent |
| `Comparisons.Less` | zz_core/zz_fixedarray.h:425-428 | `x < y` exactly when the first non-equivalent position orders x's element before y's |
| `Comparisons.NotEqual` | zz_core/zz_fixedarray.h:429-432 | `x != y` exactly when some index holds different elements |
| `Comparisons.Greater` | zz_core/zz_fixedarray.h:433-436 | `x > y` exactly when the first deciding position orders y's element before x's |
| `Comparisons.LessEq` | zz_core/zz_fixedarray.h:437-440 | `x <= y` exactly when no position decides `y < x` |
| `Comparisons.GreaterEq` | zz_core/zz_fixedarray.h:441-444 | `x >= y` exactly when no position decides `x < y` |
| `Comparisons.LexLessIrreflexive` | zz_core/zz_fixedarray.h:425-428 | with an asymmetric element order, `!(x < x)` |
| `Comparisons.LexLessAsymmetric` | zz_core/zz_fixedarray.h:425-428 | with an asymmetric element order, `x < y` rules out `y < x` |
| `Comparisons.LexTrichotomy` | zz_core/zz_fixedarray.h:425-428 | with a strict total element order, `x < y`, `x` equal to `y`, or `y < x` |
| `Comparisons.DerivedOperators` | zz_core/zz_fixedarray.h:421-444 | with a strict total element order, `<=` is `<` or `==`, `>=` is `>` or `==`, and exactly one of `<`, `==`, `>` holds |
| `CStrings.StrNLen` | zz_core/zz_fixedarray.h:266 | the length is at most N, no NUL comes before it, and a NUL stands at it when it is below N |
| `CStrings.ScanFrom` | zz_core/zz_fixedarray.h:266 | the scan from index i stops at the first NUL at or after i, or at the end |
| `CStrings.StrNLenAt` | zz_core/zz_fixedarray.h:266 | a NUL at k with none before it makes the length k |
| `CStrings.StringView` | zz_core/zz_fixedarray.h:299-306 | "" when the last byte is not NUL; otherwise the NUL-free bytes before the first NUL, which lies within the buffer |
| `CStrings.Terminate` | zz_core/zz_fixedarray.h:253 | the last byte becomes NUL and every other byte keeps its value |
| `CStrings.BoundedWrite` | zz_core/zz_fixedarray.h:277 | vsnprintf with room `size` writes `min(len(out), size-1)` bytes of the output, then a NUL, keeps every other byte, and writes nothing when size is 0 |
| `CStrings.AfterFormat` | zz_core/zz_fixedarray.h:231-255 | after formatstring the last byte is NUL; with a null format nothing else changes |
| `CStrings.AfterAppendFormat` | zz_core/zz_fixedarray.h:257-287 | after appendformatstring the last byte is NUL; with a null format, or when strnlen finds no NUL, nothing else changes |
| `CStrings.AfterAppendString` | zz_core/zz_fixedarray.h:289-297 | after appendstring the last byte is NUL; a null string changes nothing else; a NUL-free string behaves as appendformatstring with that string as output |
| `CStrings.FormatLayout` | zz_core/zz_fixedarray.h:238-253 | after formatstring the buffer begins with the first `min(len(s), N-1)` output bytes, then a NUL; the later bytes keep their values and the last is NUL |
| `CStrings.FormatGetString` | zz_core/zz_fixedarray.h:231-255 | getstring after formatstring of a NUL-free output is that output cut to N-1 bytes |
| `CStrings.TruncationExample` | zz_core/zz_fixedarray.h:231-255 | formatting "abcdef" into 5 bytes reads back "abcd" and byte 4 is NUL |
| `CStrings.AppendLayout` | zz_core/zz_fixedarray.h:264-286 | with len = strnlen < N, bytes before len are kept, the next `min(len(s), N-1-len)` hold the output, then a NUL; later bytes keep their values |
| `CStrings.AppendUnterminated` | zz_core/zz_fixedarray.h:266-271 | when the buffer holds no NUL, appendformatstring only writes the terminator at N-1 |
| `CStrings.AppendWhenFull` | zz_core/zz_fixedarray.h:264-286 | a string already N-1 bytes long is left exactly as it is |
| `CStrings.AppendGetString` | zz_core/zz_fixedarray.h:257-287 | after an append of a NUL-free output the length is len plus the room used, and getstring reads the old string followed by the output cut to the room |
| `CStrings.AppendsAccumulate` | zz_core/zz_fixedarray.h:289-297 | two appendstring calls whose strings fit in N-1 bytes read back as the old string, then the first, then the second |
| `CStrings.AppendExample` | zz_core/zz_fixedarray.h:289-297 | on a fresh buffer of 5 or more bytes, "ab" then "cd" reads back "abcd" |
| `CStrings.ZeroedIsEmptyString` | zz_core/zz_fixedarray.h:136-139 | an all-NUL buffer reads as the empty string |
| `FixedArrays.FixedArray.constructor` | zz_core/zz_fixedarray.h:24 | a new array holds N elements in fresh storage |
| `FixedArrays.FixedArray.Size` | zz_core/zz_fixedarray.h:92 | size() is the number of elements stored |
| `FixedArrays.FixedArray.MaxSize` | zz_core/zz_fixedarray.h:94 | max_size() equals size() |
| `FixedArrays.FixedArray.Empty` | zz_core/zz_fixedarray.h:93 | empty() holds exactly when size() is 0, which is never for this variant |
| `FixedArrays.FixedArray.Elements` | zz_core/zz_fixedarray.h:37-42 | iteration yields N elements in index order, element i being what the checked read at i gives |
| `FixedArrays.FixedArray.At` | zz_core/zz_fixedarray.h:58-70 | a read succeeds exactly when i < N and then gives `elems[i]`; otherwise it fails with `OutOfRange(i, N)` |
| `FixedArrays.FixedArray.SetAt` | zz_core/zz_fixedarray.h:58-69 | a write succeeds exactly when i < N and then sets index i to v and no other index; otherwise it fails with `OutOfRange(i, N)` and changes nothing |
| `FixedArrays.FixedArray.Front` | zz_core/zz_fixedarray.h:72-80 | front() is what the checked read at 0 gives |
| `FixedArrays.FixedArray.Back` | zz_core/zz_fixedarray.h:82-90 | back() is what the checked read at N-1 gives |
| `FixedArrays.FixedArray.SetFront` | zz_core/zz_fixedarray.h:72-75 | writing through front() sets index 0 and nothing else |
| `FixedArrays.FixedArray.SetBack` | zz_core/zz_fixedarray.h:82-85 | writing through back() sets index N-1 and nothing else |
| `FixedArrays.FixedArray.Fill` | zz_core/zz_fixedarray.h:110-112 | every one of the N elements becomes v |
| `FixedArrays.FixedArray.Assign` | zz_core/zz_fixedarray.h:109 | assign(v) has the same effect as fill(v) |
| `FixedArrays.FixedArray.Swap` | zz_core/zz_fixedarray.h:98-101 | this array gets y's old elements and y gets this array's, index by index |
| `FixedArrays.FixedArray.CopyFrom` | zz_core/zz_fixedarray.h:103-107 | `a = b` gives a b's elements and leaves b unchanged |
| `FixedArrays.Swap` | zz_core/zz_fixedarray.h:447-450 | the global swap has the effect of x.swap(y) |
| `FixedArrays.EqualIffSameReads` | zz_core/zz_fixedarray.h:421-424 | `x == y` exactly when every checked read, in range or not, gives the same result on both |
| `CharBuffers.CharBuffer.constructor` | zz_core/zz_fixedarray.h:136-139 | all N bytes of a new buffer are NUL and getstring gives "" |
| `CharBuffers.CharBuffer.Size` | zz_core/zz_fixedarray.h:209 | size() is the number of bytes stored |
| `CharBuffers.CharBuffer.MaxSize` | zz_core/zz_fixedarray.h:211 | max_size() equals size() |
| `CharBuffers.CharBuffer.Empty` | zz_core/zz_fixedarray.h:210 | empty() holds exactly when size() is 0, which is never for this variant |
| `CharBuffers.CharBuffer.Elements` | zz_core/zz_fixedarray.h:154-159 | iteration yields the N bytes in index order, byte i being what the checked read at i gives |
| `CharBuffers.CharBuffer.At` | zz_core/zz_fixedarray.h:175-187 | a read succeeds exactly when i < N and then gives `elems[i]`; otherwise it fails with `OutOfRange(i, N)` |
| `CharBuffers.CharBuffer.SetAt` | zz_core/zz_fixedarray.h:175-186 | a write succeeds exactly when i < N and then sets byte i and no other; otherwise it fails with `OutOfRange(i, N)` and changes nothing |
| `CharBuffers.CharBuffer.Front` | zz_core/zz_fixedarray.h:189-197 | front() is what the checked read at 0 gives |
| `CharBuffers.CharBuffer.Back` | zz_core/zz_fixedarray.h:199-207 | back() is what the checked read at N-1 gives |
| `CharBuffers.CharBuffer.SetFront` | zz_core/zz_fixedarray.h:189-192 | writing through front() sets byte 0 and nothing else |
| `CharBuffers.CharBuffer.SetBack` | zz_core/zz_fixedarray.h:199-202 | writing through back() sets byte N-1 and nothing else |
| `CharBuffers.CharBuffer.Fill` | zz_core/zz_fixedarray.h:226-228 | every one of the N bytes becomes c |
| `CharBuffers.CharBuffer.Assign` | zz_core/zz_fixedarray.h:225 | assign(c) has the same effect as fill(c) |
| `CharBuffers.CharBuffer.Swap` | zz_core/zz_fixedarray.h:215-218 | the two buffers exchange their bytes, index by index |
| `CharBuffers.CharBuffer.CopyFrom` | zz_core/zz_fixedarray.h:220-223 | `a = b` gives a b's bytes and leaves b unchanged |
| `CharBuffers.CharBuffer.WriteBounded` | zz_core/zz_fixedarray.h:245 | the buffer afterwards is the vsnprintf result `BoundedWrite` of the old one |
| `CharBuffers.CharBuffer.FormatString` | zz_core/zz_fixedarray.h:231-255 | the buffer afterwards is `AfterFormat` of the old contents and the output |
| `CharBuffers.CharBuffer.AppendFormatString` | zz_core/zz_fixedarray.h:257-287 | the buffer afterwards is `AfterAppendFormat` of the old contents and the output |
| `CharBuffers.CharBuffer.AppendString` | zz_core/zz_fixedarray.h:289-297 | the buffer afterwards is `AfterAppendString` of the old contents and the argument |
| `CharBuffers.CharBuffer.GetString` | zz_core/zz_fixedarray.h:299-306 | "" when the last byte is not NUL; otherwise the NUL-free bytes before the first NUL, which lies within the buffer |
| `CharBuffers.Swap` | zz_core/zz_fixedarray.h:447-450 | the global swap has the effect of x.swap(y) |
| `EmptyArrays.EmptyArray.Size` | zz_core/zz_fixedarray.h:388 | size() is the number of elements, none |
| `EmptyArrays.EmptyArray.MaxSize` | zz_core/zz_fixedarray.h:390 | max_size() equals size() |
| `EmptyArrays.EmptyArray.Empty` | zz_core/zz_fixedarray.h:389 | empty() holds exactly when size() is 0, which is always |
| `EmptyArrays.EmptyArray.Elements` | zz_core/zz_fixedarray.h:339-344 | iteration over begin()..end() yields no element |
| `EmptyArrays.EmptyArray.Begin` | zz_core/zz_fixedarray.h:339-341 | begin() is already the past-the-end position of the empty range |
| `EmptyArrays.EmptyArray.End` | zz_core/zz_fixedarray.h:339-344 | end() equals begin(), and the range between them holds no element |
| `EmptyArrays.EmptyArray.At` | zz_core/zz_fixedarray.h:360-369 | a read fails with `EmptyAccess` whatever the index |
| `EmptyArrays.EmptyArray.SetAt` | zz_core/zz_fixedarray.h:360-368 | a write fails with `EmptyAccess` whatever the index |
| `EmptyArrays.EmptyArray.Front` | zz_core/zz_fixedarray.h:371-378 | front() fails with `EmptyAccess` |
| `EmptyArrays.EmptyArray.Back` | zz_core/zz_fixedarray.h:379-386 | back() fails with `EmptyAccess` |
| `EmptyArrays.EmptyArray.Fill` | zz_core/zz_fixedarray.h:402 | fill(v) changes nothing |
| `EmptyArrays.EmptyArray.Assign` | zz_core/zz_fixedarray.h:401 | assign(v) changes nothing |
| `EmptyArrays.EmptyArray.Swap` | zz_core/zz_fixedarray.h:393-394 | swap(y) changes neither array |
| `EmptyArrays.EmptyArray.CopyFrom` | zz_core/zz_fixedarray.h:396-399 | `a = b` changes neither array |
| `EmptyArrays.Swap` | zz_core/zz_fixedarray.h:447-450 | the global swap of two zero-size arrays changes neither |
| `EmptyArrays.EmptyArraysCompareEqual` | zz_core/zz_fixedarray.h:421-440 | two zero-size arrays compare equal, neither is below the other, and each is `<=` the other |

## Left out

- Formatting: printf format interpretation and variable arguments are not modelled. The string operations take the formatted output as a parameter, and only the `vsnprintf` truncation rule is modelled.
- Platforms: the differences between the Windows and POSIX branches are not modelled (`_vsnprintf_s` with `_TRUNCATE` against `vsnprintf`, and the `#pragma warning` lines). Both branches are taken to write at most size-1 bytes and then a NUL.
- The `try`/`catch(...)` around the formatting calls is not modelled. The C formatting calls do not throw, so the catch arms are dead code, and the terminator postcondition covers them anyway.
- Error messages: the diagnostic text of the out-of-range exception (`snprintf` into a 256-byte buffer with file, line and function name) is not modelled. The failure carries only the index and the bound, or `EmptyAccess` for the zero-size variant.
- Return values: the `const char*` returned by the string operations is the buffer itself and is not returned separately. Callers read the buffer, or use `GetString`.
- Iterators: raw-pointer iterators, reverse iterators and the zero-size `reinterpret_cast` sentinel are not modelled. Iteration is modelled as `Elements()` (the elements in index order), plus `Begin() == End()` for size 0.
- Element types: the cross-type `operator=` with a conversion from `T2` to `T` is not modelled, because implicit C++ conversions are not visible. Only the same-type copy is modelled. The private `data()` and `c_array()` are not modelled either.
- `FixedArrays.FixedArray.constructor`: leaves the element values unspecified (Dafny's default value of `T`), as default construction of an arbitrary `T` does not fix them.
- `char`: Dafny's `char` is used for the byte type, and the value range beyond 8 bits is not excluded. The order that `<` uses on `char` (signed or unsigned, depending on the implementation) is not fixed: the comparisons take the element order as the parameter `less`.
- `size_type` wrap-around: indices are `nat`. A negative index converted to `size_t` becomes a large unsigned value, which is out of range just like any other index `>= N`.
- `CharBuffers.CharBuffer.GetString`: the source returns a pointer to a literal `""` when the last byte is not NUL, and the buffer itself otherwise. Both are modelled as string values, so an empty string whose first byte is NUL is indistinguishable from the literal. The function does not promise "`""` exactly when the last byte is not NUL", which does not hold for that case.
- Concurrent access to one instance is not modelled. The source specifies no synchronisation.
- Element equality: `Comparisons.Equal` and `Comparisons.NotEqual` compare elements by value identity, Dafny's `==` on `T`. The source calls `T`'s own `operator==`, which may differ (a floating-point NaN is not equal to itself, and a type's `==` may compare only a key), so those element types are not covered. `Comparisons.Total`, `Comparisons.LexTrichotomy`, `Comparisons.DerivedOperators` and `FixedArrays.EqualIffSameReads` rest on the same identity.
- `EmptyArrays.EmptyArray`: allows the element type `char`. In the source, `fixedarray<char,0>` matches both the `char` and the zero-size partial specializations, neither of which is more specialized, so that type cannot be instantiated there.
- `FixedArrays.FixedArray`: allows the element type `char`. In the source, `fixedarray<char,N>` always selects the `char` specialization, which zeroes its bytes and adds the string API; that case is modelled by `CharBuffers.CharBuffer`, and `FixedArray<char>` has no counterpart in the source.
- Aliasing into the buffer: a string or formatted output that points into the buffer itself (`b.appendstring(b.getstring())`) overlaps `vsnprintf`'s destination, which is undefined behaviour in C; the model takes the argument as a value and so gives that case a defined result. Likewise a reference kept from `operator[]`, `front()` or `back()` is modelled only as one immediate `SetAt`, `SetFront` or `SetBack`, not as a lasting alias into the storage.
