/** Option and Result, the two Rust standard types the message validator returns. */
module Wrappers {

  /** Rust's `Option<T>`. */
  datatype Option<+T> = None | Some(value: T) {

    /** Rust's `Option::and_then`: feed the carried value, if any, to `f`. */
    function AndThen<U>(f: T -> Option<U>): (r: Option<U>)
      ensures None? ==> r.None?
      ensures Some? ==> r == f(value)
    {
      match this
      case None => None
      case Some(v) => f(v)
    }
  }

  /** Rust's `Result<R, E>`. */
  datatype Result<+R, +E> = Success(value: R) | Failure(error: E)
}
