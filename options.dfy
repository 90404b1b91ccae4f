/** Optional values and results with an error, for operations that may come back empty. */
module Options {

  /** Python's `None` or a value. */
  datatype Option<T> = None | Some(value: T)

  /** A value, or the error a Python expression would raise instead. */
  datatype Result<T, E> = Ok(value: T) | Err(error: E)
}
