/** Types that several components share. */
module Common {

  /** An account, a contract or any other party, identified by number. */
  type Address = nat

  datatype Option<+T> = None | Some(value: T)

  /** What a call answers: a value, or the error for which it was refused. */
  datatype Result<+T, +E> = Ok(value: T) | Err(error: E)
}
