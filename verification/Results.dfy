// Optional values, and results that may be an exception.
module Results {
  datatype Option<T> = None | Some(value: T)

  /** The exceptions the modelled functions raise. */
  datatype Error =
    | ValueError
    | TypeError
    | RuntimeError
    | OverflowError
    | IntegrityError
    | FileNotFoundError
    | AttributeError

  datatype Outcome<T> = Ok(value: T) | Raised(error: Error)
}
