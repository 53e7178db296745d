/** Failure-compatible wrappers shared by the three pipelines. */
module Wrappers {

  datatype Option<+T> = None | Some(value: T)

  /** A value, or the error that ended the computation (a Python exception). */
  datatype Result<+T, +E> = Success(value: T) | Failure(error: E) {
    predicate IsFailure() {
      Failure?
    }

    function PropagateFailure<U>(): Result<U, E>
      requires Failure?
    {
      Failure(error)
    }

    function Extract(): T
      requires Success?
    {
      value
    }
  }
}
