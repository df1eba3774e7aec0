/** A value that may be missing, and the outcome of a repository call. */
module Options {
  /** A nullable column or a lookup without a row. */
  datatype Option<+T> = None | Some(value: T)

  /** `NotFound` is the repositories' own error for zero rows; `Fault` is every other failure. */
  datatype Error = NotFound | Fault

  datatype Result<+T> = Ok(value: T) | Err(error: Error)
}
