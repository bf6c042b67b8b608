/** What a call returns when the program either produces a value or throws. */
module Results {
  datatype Result<+T> = Ok(value: T) | Err(message: string)
}
