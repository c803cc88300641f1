/** Values a script may lack, and results it may throw instead of returning. */
module Options {

  /** `undefined` or `null`, or a value. */
  datatype Option<+T> = None | Some(value: T)

  /** A returned value, or a thrown error. */
  datatype Result<+T, +E> = Ok(value: T) | Err(error: E)
}
