/**
  The optional value used wherever the source returns or accepts None, and the
  result used wherever it raises an exception or returns an error response.
 */
module Wrappers {

  datatype Option<+T> = None | Some(value: T) {

    /** The value, or `default` when there is none (Python's `x if x is not None else default`). */
    function GetOr(default: T): T {
      match this
      case Some(v) => v
      case None => default
    }
  }

  /** A value, or the error the source raises or reports instead. */
  datatype Result<+T, +E> = Ok(value: T) | Err(error: E)
}
