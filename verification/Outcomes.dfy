/** Values that may be missing, and operations that may fail. */
module Outcomes {
  datatype Option<+T> = None | Some(value: T)

  datatype Result<+T> = Ok(value: T) | Err(error: string)
}
