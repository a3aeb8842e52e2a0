/** Option and Result, the failure-carrying datatypes every other module uses. */
module Wrappers {

  /** PHP's nullable values: `None` stands for `null`. */
  datatype Option<+T> = None | Some(value: T) {

    /** The value, or `default` when absent: PHP's `??` operator. */
    function GetOr(default: T): T {
      match this
      case Some(v) => v
      case None => default
    }
  }

  /** A value or the exception the source would throw instead. */
  datatype Result<+R, +E> = Success(value: R) | Failure(error: E)
}
