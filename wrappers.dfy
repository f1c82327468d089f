/** Optional values and success-or-error results, standing in for the source's
    nullable fields and thrown errors. */
module Wrappers {

  /** A nullable value: `None` is JavaScript's null (or a missing field). */
  datatype Option<+T> = None | Some(value: T) {

    /** The value, or `default` when it is null (the `??` operator). */
    function GetOr(default: T): T {
      match this
      case Some(v) => v
      case None => default
    }
  }

  /** The outcome of an operation that either returns a value or throws. */
  datatype Result<+R, +E> = Success(value: R) | Failure(error: E)
}
