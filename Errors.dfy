/** The failures that element access on a fixed array reports. */
module Errors {

  /** An out-of-range access: the sized variants carry the offending index and
      the bound; the zero-size variant has no valid index at all. */
  datatype AccessError = OutOfRange(index: nat, bound: nat) | EmptyAccess

  /** The value an element read produces, or the error it raises. */
  datatype Result<T> = Ok(value: T) | Err(error: AccessError)

  /** Whether an element write went through, or the error it raised. */
  datatype Outcome = Pass | Fail(error: AccessError)

  /** The range check that every indexed read and write runs first
      (`size_type` is unsigned, so only the upper bound can fail). */
  function RangeCheck(i: nat, size: nat): (o: Outcome)
    ensures o.Fail? <==> i >= size
    ensures o.Fail? ==> o.error == OutOfRange(i, size)
  {
    if i >= size then Fail(OutOfRange(i, size)) else Pass
  }
}
