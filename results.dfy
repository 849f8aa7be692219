/**
  Error-carrying results, for the operations of the pipeline that can raise.
 */
module Results {
  datatype Result<+T, +E> = Ok(value: T) | Err(error: E)
}
