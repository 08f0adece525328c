/** Option and Result values shared by the checklist modules. */
module Wrappers {

  datatype Option<+T> = None | Some(value: T)

  /** A computation that either yields a value or fails with a message text. */
  datatype Result<+T> = Ok(value: T) | Err(text: string)
}
