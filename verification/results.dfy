/** Success/failure values for the operations of the server that can fail. */
module Results {

  /** Either a value computed by an operation or the error it raised instead. */
  datatype Result<+T, +E> = Ok(value: T) | Err(error: E)
}
