/** Failure-carrying result types shared by the other modules. */
module Common {

  /** A value that may be absent; `None` plays the role of a NULL pointer. */
  datatype Option<+T> = None | Some(value: T)

  /** Either a computed value or the error that stopped the computation. */
  datatype Result<+T, +E> = Ok(value: T) | Err(error: E)
}
