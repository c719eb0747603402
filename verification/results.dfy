/** Optional values and decoding outcomes shared by the whole model. */
module Results {

  /** A value that may be absent (Python's `None`). */
  datatype Option<+T> = None | Some(value: T)

  /** The outcome of an operation that can raise: a value or the error it raised. */
  datatype Result<+T, +E> = Ok(value: T) | Err(error: E)
}
