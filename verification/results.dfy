/** Failure-carrying wrappers shared by every component. */
module Results {

  datatype Option<+T> = None | Some(value: T)

  /** A fallible call: its value, or an error whose text no property depends on. */
  datatype Result<+T> = Ok(value: T) | Err
}
