/** The two failure-carrying datatypes shared by the models: a Python `None`
    result is an `Option`, a raised exception is a `Result`. */
module Wrappers {

  datatype Option<+T> = None | Some(value: T)

  datatype Result<+T, +E> = Ok(value: T) | Err(error: E)
}
