/** Optional values and fallible results, the Dafny counterparts of Rust's
    `Option<T>` and `Result<T, E>`. */
module Outcomes {

  datatype Option<+T> = None | Some(value: T)

  datatype Result<+T, +E> = Ok(value: T) | Err(error: E)

  /** The unit value `()` that `Ok(())` carries. */
  datatype Unit = Unit
}
