/** The outcome types of the engine: the DOM exceptions a SubtleCrypto
    operation rejects its promise with, and the value-or-error result that
    every operation returns in place of a promise. */
module Results {

  datatype Option<+T> = None | Some(value: T)

  /** The error kinds the operations report: the `Error` variants the code
      rejects promises with (NotSupported, Syntax, Operation, Data,
      InvalidAccess), and `Panic` for the outcome where the code does not
      return at all because a length assertion in the crypto crates fails
      (`GenericArray::from_slice` on a key of the wrong length). */
  datatype Error = NotSupported | Syntax | Operation | DataError | InvalidAccess | Panic

  datatype Result<+T> = Success(value: T) | Failure(error: Error)
}
