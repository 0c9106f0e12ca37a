/** Optional values (Java's nullable references) and results (Java's exceptions). */
module Wrappers {

  /** A value that may be absent: Java's `null` becomes `None`. */
  datatype Option<+T> = None | Some(value: T) {
    function GetOr(default: T): T {
      match this
      case Some(v) => v
      case None => default
    }
  }

  /** The outcome of an operation that either returns a value or raises an error. */
  datatype Result<+R, +E> = Success(value: R) | Failure(error: E)
}
