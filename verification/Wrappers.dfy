/** The two failure-compatible datatypes used throughout. */
module Wrappers {

  datatype Option<+T> = None | Some(value: T)

  /** A value, or the stable error code the source raises. */
  datatype Result<+T> = Success(value: T) | Failure(code: string) {
    predicate IsFailure() { Failure? }

    function PropagateFailure<U>(): Result<U>
      requires Failure?
    {
      Failure(code)
    }

    function Extract(): T
      requires Success?
    {
      value
    }
  }
}
