/**
 * Failure-compatible result types shared by every module of the model.
 * Python exceptions raised by the modelled code become `Failure` values.
 */
module Wrappers {

  /** Either a value or nothing, like Python's `None`. */
  datatype Option<+T> = None | Some(value: T)

  /** Either a computed value or the error the Python code would raise. */
  datatype Result<+T, +E> = Success(value: T) | Failure(error: E) {
    predicate IsFailure() {
      Failure?
    }

    function PropagateFailure<U>(): Result<U, E>
      requires Failure?
    {
      Failure(error)
    }

    function Extract(): T
      requires Success?
    {
      value
    }
  }
}
