/** Failure-carrying results shared by the repository and the decoder models. */
module Results {

  /** A value or an error, as the Rust `Result<T, Box<dyn Error>>` the library returns. */
  datatype Result<T, E> = Ok(value: T) | Err(error: E)

  /** Success without a value, as the Rust `Result<(), Box<dyn Error>>`. */
  datatype Outcome<E> = Pass | Fail(error: E)
}
