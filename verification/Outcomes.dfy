/** Result types shared by the models: `Option` stands for Python's optional values and `Result` for
    an operation that either returns or raises. */
module Outcomes {

  datatype Option<+T> = None | Some(value: T)

  datatype Result<+T, +E> = Ok(value: T) | Err(error: E)
}
