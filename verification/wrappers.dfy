/** Failure-carrying values used wherever the modelled code catches or throws. */
module Wrappers {

  /** A value that may be absent: an optional field, or a query that failed and was swallowed. */
  datatype Option<+T> = None | Some(value: T) {

    /** The carried value, or `default` when there is none. */
    function GetOr(default: T): T {
      match this
      case Some(v) => v
      case None => default
    }
  }

  /** The outcome of a call that either returns a value or throws an error. */
  datatype Result<+R, +E> = Success(value: R) | Failure(error: E)

  /** The outcome of a call that returns nothing or throws an error. */
  datatype Outcome<+E> = Pass | Fail(error: E)
}
