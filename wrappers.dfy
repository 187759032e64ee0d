/** Small failure-carrying datatypes shared by the whole model. */
module Wrappers {

  /** A value that may be absent: a missing JSON field, a lookup that finds nothing. */
  datatype Option<+T> = None | Some(value: T) {

    /** The value, or `default` when there is none (JavaScript's `x || default` on a present value). */
    function GetOr(default: T): T {
      match this
      case Some(v) => v
      case None => default
    }
  }

  /** The outcome of a request handler: the reply body, or the error code it answers with. */
  datatype Result<+R, +E> = Ok(value: R) | Err(error: E)
}
