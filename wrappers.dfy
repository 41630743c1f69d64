/** Option and Result, used across the model. */
module Wrappers {

  datatype Option<+T> = None | Some(value: T)

  /** The integrity violations a read can raise: a stored record whose tag is not the expected one. */
  datatype Error = CorruptRecord(expected: string, found: string)

  datatype Result<+T> = Ok(value: T) | Err(error: Error)
}
