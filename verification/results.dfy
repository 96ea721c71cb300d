/** Rust's `Option` and `Result`, the two return shapes the modelled code uses. */
module Results {

  datatype Option<+T> = None | Some(value: T)

  /** `Result<T, E>`: `Ok` carries the value, `Err` the error. */
  datatype Result<+T, +E> = Ok(value: T) | Err(error: E)
}
