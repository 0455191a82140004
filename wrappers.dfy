/** The optional-value and result datatypes shared by every module of the model. */
module Wrappers {

  /** A value that may be absent: JavaScript's `null`/`undefined` next to a real value. */
  datatype Option<+T> = None | Some(value: T) {

    /** The value, or `default` when absent (JavaScript's `x ?? default`). */
    function GetOr(default: T): T {
      match this
      case Some(v) => v
      case None => default
    }
  }

  /**
   * A handler's reply: a value, or the status code and message it answers
   * with when it stops early.
   */
  datatype Result<+T> = Ok(value: T) | Fail(status: nat, message: string)
}
