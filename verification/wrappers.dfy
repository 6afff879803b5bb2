/** Small failure-carrying datatypes shared by the hotkey and todo models. */
module Wrappers {

  /** Rust's `Option<T>` / TypeScript's `T | null`. */
  datatype Option<+T> = None | Some(value: T) {

    /** `Option::or_else`: keep this value, or take the alternative when absent. */
    function OrElse(other: Option<T>): Option<T> {
      match this
      case Some(_) => this
      case None => other
    }
  }

  /** Rust's `Result<T, E>`. */
  datatype Result<+T, +E> = Ok(value: T) | Err(error: E)

  /** Outcome of a foreign call that returns `Result<(), E>`. */
  datatype Outcome<+E> = Pass | Fail(error: E)
}
