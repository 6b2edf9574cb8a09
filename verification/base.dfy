/** Failure-carrying wrappers shared by every module of the filter model. */
module Base {

  /** A value that may be missing: a null cell, a column absent from a schema. */
  datatype Option<+T> = None | Some(value: T)

  /** The outcome of a conversion that can fail with an error of type E. */
  datatype Result<+T, +E> = Ok(value: T) | Err(error: E)
}
