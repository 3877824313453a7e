/** The bounded, NUL-terminated string semantics of the character buffer,
    stated on the buffer's contents `buf` (its N bytes in index order). */
module CStrings {

  /** The terminator byte. */
  const NUL: char := '\0'

  /** A C pointer argument that may be null (`None`). */
  datatype Option<T> = None | Some(value: T)

  predicate NulFree(s: seq<char>)
  {
    forall i :: 0 <= i < |s| ==> s[i] != NUL
  }

  function Min(a: int, b: int): (m: int)
    ensures m <= a && m <= b && (m == a || m == b)
  {
    if a <= b then a else b
  }

  /** `strnlen(buf, |buf|)`: the index of the first NUL, or |buf| when the
      buffer holds none; nothing past the buffer is ever looked at. */
  function StrNLen(s: seq<char>): (len: nat)
    ensures len <= |s|
    ensures forall j :: 0 <= j < len ==> s[j] != NUL
    ensures len < |s| ==> s[len] == NUL
  {
    ScanFrom(s, 0)
  }

  /** The first NUL at or after index i, or |s|. */
  function ScanFrom(s: seq<char>, i: nat): (len: nat)
    requires i <= |s|
    ensures i <= len <= |s|
    ensures forall j :: i <= j < len ==> s[j] != NUL
    ensures len < |s| ==> s[len] == NUL
    decreases |s| - i
  {
    if i == |s| || s[i] == NUL then i else ScanFrom(s, i + 1)
  }

  /** The string that `getstring` hands out for a buffer: the empty string
      unless the last byte is a terminator, else the bytes before the first NUL. */
  function StringView(buf: seq<char>): (r: string)
    requires |buf| > 0
    ensures buf[|buf| - 1] != NUL ==> r == ""
    ensures buf[|buf| - 1] == NUL ==>
      |r| < |buf| && r == buf[..|r|] && buf[|r|] == NUL && NulFree(r)
  {
    if buf[|buf| - 1] != NUL then "" else buf[..StrNLen(buf)]
  }

  /** `vsnprintf(buf + at, size, ...)` whose formatted output is `out`: at most
      size - 1 bytes of out, then a NUL; a size of 0 writes nothing. */
  function BoundedWrite(buf: seq<char>, at: nat, size: nat, out: seq<char>): (r: seq<char>)
    requires at + size <= |buf|
    ensures |r| == |buf|
    ensures size == 0 ==> r == buf
    ensures size > 0 ==> at + Min(|out|, size - 1) < |buf| && r[at + Min(|out|, size - 1)] == NUL
    ensures size > 0 ==> forall j :: 0 <= j < Min(|out|, size - 1) ==> r[at + j] == out[j]
    ensures forall j :: 0 <= j < at ==> r[j] == buf[j]
    ensures forall j :: at + Min(|out|, size - 1) < j < |buf| ==> r[j] == buf[j]
  {
    if size == 0 then buf
    else
      var k := Min(|out|, size - 1);
      buf[..at] + out[..k] + [NUL] + buf[at + k + 1..]
  }

  /** `elems[N-1] = '\0'`. */
  function Terminate(buf: seq<char>): (r: seq<char>)
    requires |buf| > 0
    ensures |r| == |buf| && r[|buf| - 1] == NUL
    ensures forall j :: 0 <= j < |buf| - 1 ==> r[j] == buf[j]
  {
    buf[|buf| - 1 := NUL]
  }

  /** The buffer after `formatstring`; `out` is the formatted output, None
      when the format pointer is null. */
  function AfterFormat(buf: seq<char>, out: Option<seq<char>>): (r: seq<char>)
    requires |buf| > 0
    ensures |r| == |buf| && r[|buf| - 1] == NUL
    ensures out.None? ==> r[..|buf| - 1] == buf[..|buf| - 1]
  {
    match out
    case None => Terminate(buf)
    case Some(s) => Terminate(BoundedWrite(buf, 0, |buf|, s))
  }

  /** The buffer after `appendformatstring`; `out` as for AfterFormat. */
  function AfterAppendFormat(buf: seq<char>, out: Option<seq<char>>): (r: seq<char>)
    requires |buf| > 0
    ensures |r| == |buf| && r[|buf| - 1] == NUL
    ensures out.None? || StrNLen(buf) == |buf| ==> r[..|buf| - 1] == buf[..|buf| - 1]
  {
    match out
    case None => Terminate(buf)
    case Some(s) =>
      var length := StrNLen(buf);
      if length >= |buf| then Terminate(buf)
      else Terminate(BoundedWrite(buf, length, |buf| - length, s))
  }

  /** The buffer after `appendstring`; `str` is the argument, None when null.
      `%s` copies the argument up to its first NUL. */
  function AfterAppendString(buf: seq<char>, str: Option<seq<char>>): (r: seq<char>)
    requires |buf| > 0
    ensures |r| == |buf| && r[|buf| - 1] == NUL
    ensures str.None? ==> r[..|buf| - 1] == buf[..|buf| - 1]
    ensures str.Some? && NulFree(str.value) ==> r == AfterAppendFormat(buf, str)
  {
    match str
    case None => Terminate(buf)
    case Some(s) => AfterAppendFormat(buf, Some(s[..StrNLen(s)]))
  }

  /** A NUL at k with none before it is where strnlen stops. */
  lemma StrNLenAt(s: seq<char>, k: nat)
    requires k < |s| && s[k] == NUL
    requires forall j :: 0 <= j < k ==> s[j] != NUL
    ensures StrNLen(s) == k
  {
  }

  /** formatstring with a non-null format: the buffer starts with the first
      N-1 bytes of the output, then a NUL; the later bytes keep their values
      except the last one, which is a NUL. */
  lemma FormatLayout(buf: seq<char>, s: seq<char>)
    requires |buf| > 0
    ensures var r := AfterFormat(buf, Some(s)); var k := Min(|s|, |buf| - 1);
      r[..k] == s[..k] && r[k] == NUL && r[|buf| - 1] == NUL &&
      forall j :: k < j < |buf| - 1 ==> r[j] == buf[j]
  {
    var w := BoundedWrite(buf, 0, |buf|, s);
    var k := Min(|s|, |buf| - 1);
    assert AfterFormat(buf, Some(s))[..k] == w[..k] == s[..k];
  }

  /** getstring after formatstring of a NUL-free output gives that output,
      cut to N-1 bytes. */
  lemma FormatGetString(buf: seq<char>, s: seq<char>)
    requires |buf| > 0 && NulFree(s)
    ensures StringView(AfterFormat(buf, Some(s))) == s[..Min(|s|, |buf| - 1)]
  {
    var r := AfterFormat(buf, Some(s));
    var k := Min(|s|, |buf| - 1);
    FormatLayout(buf, s);
    assert forall j :: 0 <= j < k ==> r[j] == r[..k][j];
    StrNLenAt(r, k);
  }

  /** The room appendformatstring leaves for the output: N-1-len bytes. */
  function Room(buf: seq<char>, s: seq<char>): (k: nat)
    requires StrNLen(buf) < |buf|
    ensures k <= |s| && StrNLen(buf) + k < |buf|
  {
    Min(|s|, |buf| - 1 - StrNLen(buf))
  }

  /** appendformatstring when strnlen finds a NUL at len: the first len bytes
      are kept, the next ones hold the output cut to the N-1-len bytes of room,
      then a NUL; the later bytes keep their values except the last, a NUL. */
  lemma AppendLayout(buf: seq<char>, s: seq<char>)
    requires |buf| > 0 && StrNLen(buf) < |buf|
    ensures StrNLen(buf) + Room(buf, s) < |buf|
    ensures forall j :: 0 <= j < StrNLen(buf) ==> AfterAppendFormat(buf, Some(s))[j] == buf[j]
    ensures forall j :: 0 <= j < Room(buf, s) ==> AfterAppendFormat(buf, Some(s))[StrNLen(buf) + j] == s[j]
    ensures AfterAppendFormat(buf, Some(s))[StrNLen(buf) + Room(buf, s)] == NUL
    ensures forall j :: StrNLen(buf) + Room(buf, s) < j < |buf| - 1 ==> AfterAppendFormat(buf, Some(s))[j] == buf[j]
  {
    var len := StrNLen(buf);
    var k := Room(buf, s);
    var w := BoundedWrite(buf, len, |buf| - len, s);
    var r := AfterAppendFormat(buf, Some(s));
    assert r == w[|buf| - 1 := NUL];
    assert k == Min(|s|, |buf| - len - 1);
    assert len + k < |buf| && w[len + k] == NUL;
    forall j | 0 <= j < len ensures r[j] == buf[j] {
      assert w[j] == buf[j];
    }
    forall j | 0 <= j < k ensures r[len + j] == s[j] {
      assert w[len + j] == s[j];
    }
    forall j | len + k < j < |buf| - 1 ensures r[j] == buf[j] {
      assert w[j] == buf[j];
    }
  }

  /** When the buffer holds no NUL at all, appendformatstring only terminates it. */
  lemma AppendUnterminated(buf: seq<char>, s: seq<char>)
    requires |buf| > 0 && NulFree(buf)
    ensures AfterAppendFormat(buf, Some(s)) == Terminate(buf)
  {
  }

  /** A terminated string that fills all N-1 bytes is left as it is. */
  lemma AppendWhenFull(buf: seq<char>, s: seq<char>)
    requires |buf| > 0 && StrNLen(buf) == |buf| - 1
    ensures AfterAppendFormat(buf, Some(s)) == buf
  {
    AppendLayout(buf, s);
  }

  /** getstring after appending a NUL-free output: the old string, then as
      much of the output as fits in N-1 bytes. */
  lemma AppendGetString(buf: seq<char>, s: seq<char>)
    requires |buf| > 0 && StrNLen(buf) < |buf| && NulFree(s)
    ensures StrNLen(AfterAppendFormat(buf, Some(s))) == StrNLen(buf) + Room(buf, s)
    ensures StringView(AfterAppendFormat(buf, Some(s))) == buf[..StrNLen(buf)] + s[..Room(buf, s)]
  {
    var r := AfterAppendFormat(buf, Some(s));
    var len := StrNLen(buf);
    var k := Room(buf, s);
    AppendLayout(buf, s);
    forall j | 0 <= j < len + k ensures r[j] != NUL {
      if j >= len {
        assert r[len + (j - len)] == s[j - len];
      }
    }
    StrNLenAt(r, len + k);
    assert r[..len + k] == buf[..len] + s[..k];
  }

  /** Two appendstring calls whose strings fit together accumulate. */
  lemma AppendsAccumulate(buf: seq<char>, a: seq<char>, b: seq<char>)
    requires |buf| > 0 && buf[|buf| - 1] == NUL && NulFree(a) && NulFree(b)
    requires |StringView(buf)| + |a| + |b| <= |buf| - 1
    ensures StringView(AfterAppendString(AfterAppendString(buf, Some(a)), Some(b)))
         == StringView(buf) + a + b
  {
    var len := StrNLen(buf);
    var mid := AfterAppendString(buf, Some(a));
    AppendGetString(buf, a);
    assert a[..|a|] == a;
    AppendGetString(mid, b);
    assert b[..|b|] == b;
  }

  /** A buffer of NULs, as the constructor leaves it, reads as the empty string. */
  lemma ZeroedIsEmptyString(n: nat)
    requires n > 0
    ensures StringView(seq(n, _ => NUL)) == ""
  {
    StrNLenAt(seq(n, _ => NUL), 0);
  }

  /** A fresh buffer of at least five bytes, given "ab" and then "cd", reads "abcd". */
  lemma AppendExample(n: nat)
    requires n >= 5
    ensures StringView(AfterAppendString(AfterAppendString(seq(n, _ => NUL), Some("ab")), Some("cd")))
         == "abcd"
  {
    ZeroedIsEmptyString(n);
    AppendsAccumulate(seq(n, _ => NUL), "ab", "cd");
  }

  /** Formatting "abcdef" into a five-byte buffer keeps "abcd". */
  lemma TruncationExample(buf: seq<char>)
    requires |buf| == 5
    ensures StringView(AfterFormat(buf, Some("abcdef"))) == "abcd"
    ensures AfterFormat(buf, Some("abcdef"))[4] == NUL
  {
    FormatGetString(buf, "abcdef");
  }
}
