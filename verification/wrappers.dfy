/** Optional values and results with an error branch, used wherever the
    program returns null or throws. */
module Wrappers {

  /** A value that may be absent (a C# null reference or nullable value). */
  datatype Option<+T> = None | Some(value: T) {

    /** The value, or `default` when absent (the C# `??` operator). */
    function GetOr(default: T): T {
      match this
      case Some(v) => v
      case None => default
    }
  }

  /** The outcome of an operation that may throw. */
  datatype Result<+T, +E> = Success(value: T) | Failure(error: E)
}
