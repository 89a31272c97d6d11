/** Failure-carrying result types shared by the training-driver model. */
module Results {

  /** A value or the error that the driver raises instead of producing it. */
  datatype Result<+T, +E> = Ok(value: T) | Err(error: E)
}
