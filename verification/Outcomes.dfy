/** What a contract call can come back with. */
module Outcomes {

  datatype Option<+T> = None | Some(value: T)

  /** Ok and Err are the contract's own `Result`; Panic is an aborted invocation (a failed
      authorisation or token transfer, a division by zero, an unsigned underflow). The host
      rolls back all writes of a call that does not end in Ok. */
  datatype Result<+T, +E> = Ok(value: T) | Err(error: E) | Panic
}
