/** Optional values and results that carry either a value or a failure. */
module Wrappers {

  /** A value that may be absent, like a Python field that may hold `None`. */
  datatype Option<+T> = None | Some(value: T)

  /** The outcome of a validating constructor or of a calculation. */
  datatype Result<+R, +E> = Success(value: R) | Failure(error: E) {

    predicate IsFailure() {
      Failure?
    }

    function PropagateFailure<U>(): Result<U, E>
      requires Failure?
    {
      Failure(error)
    }

    function Extract(): R
      requires Success?
    {
      value
    }
  }
}
