/** Vocabulary shared by every component. */
module Basics {
  datatype Option<+T> = None | Some(value: T)

  datatype Result<+T, +E> = Success(value: T) | Failure(error: E) {
    predicate IsFailure() { Failure? }
    function PropagateFailure<U>(): Result<U, E> requires Failure? { Failure(error) }
    function Extract(): T requires Success? { value }
  }

  /** Thirty minutes in microseconds: one settlement period, one forecast interval. */
  const HALF_HOUR := 1_800_000_000

  /** On a UTC half-hour. */
  predicate Aligned(t: int) {
    t % HALF_HOUR == 0
  }

  function Abs(x: real): real {
    if x < 0.0 then -x else x
  }

  function Min(x: real, y: real): real {
    if x < y then x else y
  }

  function Max(x: real, y: real): real {
    if x < y then y else x
  }

  lemma Distribute(c: real, x: real, y: real)
    ensures c * (x + y) == c * x + c * y
  {}

  lemma DistributeDifference(a: real, b: real, c: real)
    ensures (a - b) * c == a * c - b * c
  {}
}
