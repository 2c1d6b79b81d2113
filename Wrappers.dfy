/** Option for the nullable references of the source, and Result for its exceptions. */
module Wrappers {

  datatype Option<+T> = None | Some(value: T)

  /** Success carries the value a call returns; Failure the exception it throws.
      Failure-compatible, so that `:-` aborts at the first failing step. */
  datatype Result<+T, +E> = Success(value: T) | Failure(error: E) {

    predicate IsFailure() {
      Failure?
    }

    function PropagateFailure<U>(): Result<U, E>
      requires Failure?
    {
      Failure(error)
    }

    function Extract(): T
      requires Success?
    {
      value
    }
  }
}
