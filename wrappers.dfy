/** The optional values and results the Go code expresses with nil and with
    `(value, error)` pairs. */
module Wrappers {
  datatype Option<T> = None | Some(value: T)

  datatype Result<T, E> = Ok(value: T) | Err(error: E)
}
