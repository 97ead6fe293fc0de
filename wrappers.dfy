/** Failure-compatible result types standing in for Java's exceptions and null. */
module Wrappers {

  /** A value that may be absent (Java's `null`). */
  datatype Option<+T> = None | Some(value: T)

  /** A computed value, or the exception raised instead of returning it. */
  datatype Result<+T, +E> = Success(value: T) | Failure(error: E)

  /** A `void` operation that either completes or raises an exception. */
  datatype Outcome<+E> = Pass | Fail(error: E)

  function Min(a: int, b: int): (m: int)
    ensures m <= a && m <= b && (m == a || m == b)
  {
    if a < b then a else b
  }

  function Max(a: int, b: int): (m: int)
    ensures m >= a && m >= b && (m == a || m == b)
  {
    if a < b then b else a
  }
}
