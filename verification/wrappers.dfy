/** Failure-carrying datatypes shared by the model. */
module Wrappers {

  /** A value that may be absent: a JavaScript field that is `undefined` or `null`. */
  datatype Option<+T> = None | Some(value: T) {

    /** The wrapped value, or `default` when absent (JavaScript's `x || default`). */
    function GetOr(default: T): T {
      match this
      case Some(v) => v
      case None => default
    }
  }

  /** The abstract outcome of one request to the remote store: it either
      answers with a value or fails (transport or non-2xx status alike). */
  datatype Reply<+T> = Ok(value: T) | Failed
}
