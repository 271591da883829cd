/** Option and the outcome of a Rust call that may panic. */
module Wrappers {

  datatype Option<+T> = None | Some(value: T) {
    /** `unwrap_or`: the carried value, or `default` for `None`. */
    function GetOr(default: T): T {
      match this
      case Some(v) => v
      case None => default
    }
  }

  /** What a call of the Rust program does: it returns a value, or the
      task panics (an `unwrap` of a `None`/`Err`, or of a JSON value of the
      wrong type). `reason` names the failed unwrap. */
  datatype Run<+T> = Returned(value: T) | Panicked(reason: string)
}
