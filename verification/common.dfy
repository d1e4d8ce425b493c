/** Failure-aware wrappers shared by every module of the model. */
module Common {

  /** An optional value: Rust's `Option<T>`. */
  datatype Option<+T> = None | Some(value: T) {
    function GetOr(default: T): T {
      match this
      case Some(v) => v
      case None => default
    }
  }

  /** A value or a user-facing error message: the views report every failure as text. */
  datatype Result<+T> = Ok(value: T) | Err(message: string)
}
