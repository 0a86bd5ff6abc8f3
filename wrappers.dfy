/** Option and Result values, used where the program has an absent
    argument or raises an exception instead of returning. */
module Wrappers {

  datatype Option<+T> = None | Some(value: T)

  /** Either a value or the message of the exception raised instead. */
  datatype Result<+T> = Ok(value: T) | Err(message: string)
}
