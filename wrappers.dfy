/** Option and Result, the usual failure-carrying wrappers. */
module Wrappers {

  /** A value that may be absent (JavaScript's `undefined`/`null`, or `NaN` for a parse). */
  datatype Option<+T> = None | Some(value: T) {
    /** The wrapped value, or `default` when there is none (`x || default` on a present-or-absent value). */
    function GetOr(default: T): T {
      match this
      case Some(v) => v
      case None => default
    }
  }

  /** The outcome of an operation that either succeeds with a value or fails with an error. */
  datatype Result<+T, +E> = Success(value: T) | Failure(error: E)
}
