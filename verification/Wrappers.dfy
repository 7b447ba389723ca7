/** Result types shared by the modules. */
module Wrappers {
  datatype Option<+T> = None | Some(value: T)

  /** What the repository's functions return as (value, error). */
  datatype Result<+T> = Ok(value: T) | Err
}
