/** The two failure-carrying datatypes that every module of the model shares. */
module Wrappers {

  datatype Option<+T> = None | Some(value: T)

  /** A source function that throws returns `Err`; the error names the condition it throws for. */
  datatype Result<+T, +E> = Ok(value: T) | Err(error: E)
}
