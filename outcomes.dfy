/** Option and panic outcomes shared by every module of the model. */
module Outcomes {

  /** An optional value; `None` models both Rust's `None` and a null pointer. */
  datatype Option<+T> = None | Some(value: T) {

    /** The value in `Some`, or `default` for `None`. */
    function GetOr(default: T): T {
      match this
      case Some(v) => v
      case None => default
    }
  }

  /** The result of code that aborts the process on failure (`unwrap`, `expect`):
      either it finishes with a value or it panics with a message. */
  datatype Outcome<+T> = Done(value: T) | Panic(message: string)
}
