/** Optional values and results shared by the model's modules. */
module Options {

  /** A value that may be missing (a pandas NaN / NaT cell). */
  datatype Option<+T> = None | Some(value: T)

  /** The outcome of a computation that can fail with a message. */
  datatype Result<+T> = Success(value: T) | Failure(error: string)
}
