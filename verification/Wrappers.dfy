/** The optional and fallible results used throughout the model.
    `None` stands for the source's `undefined`. */
module Wrappers {

  datatype Option<+T> = None | Some(value: T)

  datatype Result<+T> = Ok(value: T) | Err(message: string)
}
