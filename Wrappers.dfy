/** Optional values and results, standing for the source's nulls and exceptions. */
module Wrappers {

  /** `None` stands for a C# `null`. */
  datatype Option<+T> = None | Some(value: T) {
    function GetOr(default: T): T {
      match this
      case Some(v) => v
      case None => default
    }
  }

  /** `Failure` stands for an exception that the source lets propagate. */
  datatype Result<+R, +E> = Success(value: R) | Failure(error: E)
}
