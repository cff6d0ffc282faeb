/** Option and Result, the two failure-carrying values the model uses in place of
    the program's `os.Exit` calls and Go's `(value, err)` returns. */
module Wrappers {

  datatype Option<+T> = None | Some(value: T)

  datatype Result<+T, +E> = Ok(value: T) | Err(error: E)
}
