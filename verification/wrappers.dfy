/** Failure-compatible wrappers used across the model: an optional value
    (the source's `undefined` fields) and a success-or-error result (the
    HTTP handlers' 4xx/5xx replies). */
module Wrappers {

  datatype Option<+T> = None | Some(value: T) {

    /** Returns the value or `default` when absent. */
    function GetOr(default: T): T {
      match this
      case Some(v) => v
      case None => default
    }
  }

  datatype Result<+R, +E> = Success(value: R) | Failure(error: E) {

    predicate IsFailure() {
      Failure?
    }

    function PropagateFailure<U>(): Result<U, E>
      requires Failure?
    {
      Failure(error)
    }

    function Extract(): R
      requires Success?
    {
      value
    }
  }
}
