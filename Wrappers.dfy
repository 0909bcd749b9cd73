/** Optional values and results, standing in for Java's null, Optional and exceptions. */
module Wrappers {

  /** `None` plays the part of Java's `null` or an empty `Optional`. */
  datatype Option<+T> = None | Some(value: T) {
    function GetOr(default: T): T {
      match this
      case Some(v) => v
      case None => default
    }
  }

  /** `Err` plays the part of an exception thrown out of an operation. */
  datatype Result<+T, +E> = Ok(value: T) | Err(error: E)
}
