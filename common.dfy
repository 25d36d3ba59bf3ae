/** Failure-carrying values shared by the ledger, the server and the client. */
module Common {

  /** A value that may be absent: JavaScript's `undefined` for a missing property. */
  datatype Option<+T> = None | Some(value: T)

  /** The outcome of an operation that the source ends with a thrown error or an error reply. */
  datatype Result<+T, +E> = Ok(value: T) | Err(error: E)
}
