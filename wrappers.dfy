/** Small failure-carrying datatypes shared by the wallet and bank models.
    `Option` stands for a Java reference that may be null; `Result` for a call
    that either returns a value or throws. */
module Wrappers {

  datatype Option<+T> = None | Some(value: T)

  datatype Result<+T, +E> = Ok(value: T) | Err(error: E)
}
