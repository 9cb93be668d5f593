/** The optional value and the success-or-failure result that the model uses
    wherever the program has `undefined`, `null` or a caught exception. */
module Wrappers {

  datatype Option<T> = None | Some(value: T)

  datatype Result<T> = Ok(value: T) | Err
}
