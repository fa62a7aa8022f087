/** Failure-compatible return types shared by the modules of this model. */
module Wrappers {

  /** The Python `None`-or-value convention. */
  datatype Option<+T> = None | Some(value: T)

  /** A value, or the exception that the Python code raises instead of returning one. */
  datatype Result<+T, +E> = Success(value: T) | Failure(error: E) {
    predicate IsFailure() { Failure? }

    function PropagateFailure<U>(): Result<U, E>
      requires Failure?
    {
      Failure(error)
    }

    function Extract(): T
      requires Success?
    {
      value
    }
  }
}
