/** The outcome of a fallible conversion, as Rust's `Result<T, E>`. */
module Wrappers {

  datatype Result<+T, +E> = Ok(value: T) | Err(error: E)
}
