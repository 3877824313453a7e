/** The free comparison operators between two fixed arrays of the same size.
    Each operator sees its operands as their element sequences in index order
    (the ranges begin()..end()); the element order is the parameter `less`. */
module Comparisons {

  /** `std::equal`: element-wise equality, position by position. */
  function Equal<T(==)>(a: seq<T>, b: seq<T>): (r: bool)
    requires |a| == |b|
    ensures r <==> forall i :: 0 <= i < |a| ==> a[i] == b[i]
  {
    if |a| == 0 then true
    else
      a[0] == b[0] && Equal(a[1..], b[1..])
  }

  /** `std::lexicographical_compare`, which consults only `less`. */
  function LexLess<T>(a: seq<T>, b: seq<T>, less: (T, T) -> bool): (r: bool)
    ensures r ==> |b| > 0
    ensures |a| == 0 ==> (r <==> |b| > 0)
    decreases |b|
  {
    if |b| == 0 then false
    else if |a| == 0 || less(a[0], b[0]) then true
    else if less(b[0], a[0]) then false
    else LexLess(a[1..], b[1..], less)
  }

  /** Neither element is ordered before the other. */
  ghost predicate Equivalent<T>(x: T, y: T, less: (T, T) -> bool)
  {
    !less(x, y) && !less(y, x)
  }

  /** Position k decides the comparison in favour of a: all earlier
      positions are equivalent and a[k] is ordered before b[k]. */
  ghost predicate LessAt<T>(a: seq<T>, b: seq<T>, less: (T, T) -> bool, k: int)
  {
    0 <= k < |a| && k < |b| && less(a[k], b[k]) &&
    forall j :: 0 <= j < k ==> Equivalent(a[j], b[j], less)
  }

  ghost predicate Asymmetric<T(!new)>(less: (T, T) -> bool)
  {
    forall x, y :: less(x, y) ==> !less(y, x)
  }

  ghost predicate Total<T(!new)>(less: (T, T) -> bool)
  {
    forall x, y :: less(x, y) || x == y || less(y, x)
  }

  /** Lexicographic order over same-size sequences is decided by the first
      position at which the elements are not equivalent. */
  lemma {:induction false} LexLessIff<T>(a: seq<T>, b: seq<T>, less: (T, T) -> bool)
    requires |a| == |b|
    ensures LexLess(a, b, less) <==> exists k :: LessAt(a, b, less, k)
    decreases |a|
  {
    if |a| == 0 {
    } else if less(a[0], b[0]) {
      assert LessAt(a, b, less, 0);
    } else if less(b[0], a[0]) {
      forall k | 0 <= k < |a| ensures !LessAt(a, b, less, k) {
        assert !Equivalent(a[0], b[0], less);
      }
    } else {
      LexLessIff(a[1..], b[1..], less);
      if LexLess(a[1..], b[1..], less) {
        var k :| LessAt(a[1..], b[1..], less, k);
        assert LessAt(a, b, less, k + 1) by {
          forall j | 0 <= j < k + 1 ensures Equivalent(a[j], b[j], less) {
            if j > 0 { assert Equivalent(a[1..][j - 1], b[1..][j - 1], less); }
          }
        }
      }
      if exists k :: LessAt(a, b, less, k) {
        var k :| LessAt(a, b, less, k);
        assert LessAt(a[1..], b[1..], less, k - 1) by {
          forall j | 0 <= j < k - 1 ensures Equivalent(a[1..][j], b[1..][j], less) {
            assert Equivalent(a[j + 1], b[j + 1], less);
          }
        }
      }
    }
  }

  /** `operator<`. */
  function Less<T>(a: seq<T>, b: seq<T>, less: (T, T) -> bool): (r: bool)
    requires |a| == |b|
    ensures r <==> exists k :: LessAt(a, b, less, k)
  {
    LexLessIff(a, b, less);
    LexLess(a, b, less)
  }

  /** `operator!=`, derived from `==`. */
  function NotEqual<T(==)>(a: seq<T>, b: seq<T>): (r: bool)
    requires |a| == |b|
    ensures r <==> exists i :: 0 <= i < |a| && a[i] != b[i]
  {
    !Equal(a, b)
  }

  /** `operator>`, derived from `<` with the operands exchanged. */
  function Greater<T>(a: seq<T>, b: seq<T>, less: (T, T) -> bool): (r: bool)
    requires |a| == |b|
    ensures r <==> exists k :: LessAt(b, a, less, k)
  {
    Less(b, a, less)
  }

  /** `operator<=`, derived from `<` with the operands exchanged. */
  function LessEq<T>(a: seq<T>, b: seq<T>, less: (T, T) -> bool): (r: bool)
    requires |a| == |b|
    ensures r <==> !exists k :: LessAt(b, a, less, k)
  {
    !Less(b, a, less)
  }

  /** `operator>=`, derived from `<`. */
  function GreaterEq<T>(a: seq<T>, b: seq<T>, less: (T, T) -> bool): (r: bool)
    requires |a| == |b|
    ensures r <==> !exists k :: LessAt(a, b, less, k)
  {
    !Less(a, b, less)
  }

  /** With an asymmetric element order no sequence is below itself. */
  lemma {:induction false} LexLessIrreflexive<T(!new)>(a: seq<T>, less: (T, T) -> bool)
    requires Asymmetric(less)
    ensures !LexLess(a, a, less)
    decreases |a|
  {
    if |a| > 0 {
      LexLessIrreflexive(a[1..], less);
    }
  }

  /** With an asymmetric element order, a < b rules out b < a. */
  lemma {:induction false} LexLessAsymmetric<T(!new)>(a: seq<T>, b: seq<T>, less: (T, T) -> bool)
    requires Asymmetric(less)
    ensures LexLess(a, b, less) ==> !LexLess(b, a, less)
    decreases |a|
  {
    if |a| > 0 && |b| > 0 && !less(a[0], b[0]) && !less(b[0], a[0]) {
      LexLessAsymmetric(a[1..], b[1..], less);
    }
  }

  /** With a strict total element order exactly one of a < b, a == b, b < a holds. */
  lemma {:induction false} LexTrichotomy<T(!new)>(a: seq<T>, b: seq<T>, less: (T, T) -> bool)
    requires |a| == |b| && Asymmetric(less) && Total(less)
    ensures LexLess(a, b, less) || a == b || LexLess(b, a, less)
    decreases |a|
  {
    if |a| > 0 && !less(a[0], b[0]) && !less(b[0], a[0]) {
      LexTrichotomy(a[1..], b[1..], less);
      if a[1..] == b[1..] {
        assert a == [a[0]] + a[1..] && b == [b[0]] + b[1..];
      }
    }
  }

  /** The derived operators mean what their names say when the element order
      is a strict total order: `<=` is "below or equal", `>=` is "above or
      equal", and `<`, `==`, `>` are mutually exclusive and exhaustive. */
  lemma DerivedOperators<T(!new)>(a: seq<T>, b: seq<T>, less: (T, T) -> bool)
    requires |a| == |b| && Asymmetric(less) && Total(less)
    ensures LessEq(a, b, less) <==> Less(a, b, less) || Equal(a, b)
    ensures GreaterEq(a, b, less) <==> Greater(a, b, less) || Equal(a, b)
    ensures Less(a, b, less) ==> !Equal(a, b) && !Greater(a, b, less)
    ensures Greater(a, b, less) ==> !Equal(a, b)
    ensures Less(a, b, less) || Equal(a, b) || Greater(a, b, less)
  {
    LexTrichotomy(a, b, less);
    LexLessAsymmetric(a, b, less);
    LexLessAsymmetric(b, a, less);
    LexLessIrreflexive(a, less);
    assert Equal(a, b) <==> a == b;
  }
}
