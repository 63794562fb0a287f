/** Failure-compatible wrappers: `Option` stands for a nullable reference,
    `Result` for an operation that may throw instead of returning. */
module Wrappers {

  datatype Option<+T> = None | Some(value: T) {

    /** The value, or `default` when None (C#'s `??`). */
    function GetOr(default: T): T {
      match this
      case Some(v) => v
      case None => default
    }
  }

  datatype Result<+R, +E> = Success(value: R) | Failure(error: E)
}
