/** Failure-carrying values: the model's stand-ins for JavaScript's `null`
    results and thrown errors. */
module Wrappers {

  datatype Option<+T> = None | Some(value: T)

  datatype Result<+R, +E> = Ok(value: R) | Err(error: E)
}
