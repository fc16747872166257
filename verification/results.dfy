/** Optional values and results that carry an error message in place of a thrown exception. */
module Results {

  datatype Option<+T> = None | Some(value: T)

  /** The outcome of a call that either returns a value or throws an error with a message. */
  datatype Result<+T> = Ok(value: T) | Err(message: string)
}
