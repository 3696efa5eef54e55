/** Option and Result values for the error paths of the model. */
module Results {

  datatype Option<+T> = None | Some(value: T)

  /** The outcome of an operation that the source ends by throwing. */
  datatype Result<+T> = Ok(value: T) | Err(msg: string)
}
