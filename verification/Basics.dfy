/** Small vocabulary shared by all models. */
module Basics {

  datatype Option<+T> = None | Some(value: T)

  datatype Result<+T> = Ok(value: T) | Err
}
