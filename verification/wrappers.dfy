/** Java's `null` and thrown exceptions, as values. */
module Wrappers {

  /** A reference that may be `null` (None). */
  datatype Option<+T> = None | Some(value: T) {
    function GetOr(default: T): T {
      match this
      case Some(v) => v
      case None => default
    }
  }

  /** A computation that either returns a value or throws an exception `E`. */
  datatype Result<+R, +E> = Success(value: R) | Failure(error: E)
}
