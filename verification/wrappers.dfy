/** Failure-compatible wrappers used throughout the model: an optional value
    (Rust's `Option`) and a success-or-failure value (a Rust `Result`, or a
    panic modelled as data). */
module Wrappers {

  datatype Option<+T> = None | Some(value: T) {

    /** Rust's `Option::or_else` / `Option::or`: keep this value if present,
        otherwise take `other`. */
    function OrElse(other: Option<T>): Option<T>
    {
      match this
      case Some(_) => this
      case None => other
    }

    /** Rust's `Option::unwrap_or`. */
    function GetOr(default: T): T
    {
      match this
      case Some(v) => v
      case None => default
    }
  }

  datatype Result<+R, +E> = Success(value: R) | Failure(error: E)
}
