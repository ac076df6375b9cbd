/** Option and Result wrappers shared by every module of the model. */
module Wrappers {

  /** A value that may be missing: JavaScript `null`/`undefined`, Rust `None`. */
  datatype Option<+T> = None | Some(value: T) {

    /** The value, or `default` when missing (JavaScript `??`). */
    function GetOr(default: T): T {
      match this
      case Some(v) => v
      case None => default
    }

    /** This value when present, else `other`. */
    function Or(other: Option<T>): Option<T> {
      if this.Some? then this else other
    }
  }

  /** The outcome of an operation that can fail with an error message. */
  datatype Result<+T> = Ok(value: T) | Err(error: string)
}
