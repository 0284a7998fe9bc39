/** Failure-carrying datatypes shared by every module of the model. */
module Wrappers {

  /** A value that may be absent (Python's `Optional[T]` / `None`). */
  datatype Option<+T> = None | Some(value: T) {

    /** The carried value, or `default` when absent (Python's `x or default`
        for values whose only falsy form is `None`). */
    function GetOr(default: T): T
    {
      match this
      case Some(v) => v
      case None => default
    }
  }

  /** The outcome of an operation that either returns a value or raises. */
  datatype Result<+T, +E> = Ok(value: T) | Err(error: E)

  /** Bytes of a file or of an audio buffer. */
  type byte = x: int | 0 <= x < 256
}
