/** Value types shared by the models: an optional value and the accepted/rejected
    result every domain constructor of the repository returns. */
module Common {
  datatype Option<+T> = None | Some(value: T)

  datatype Result<+T, +C> = Accepted(value: T) | Rejected(code: C)

  /** The largest integer for which the source's `Number.isSafeInteger` holds. */
  const MAX_SAFE_INTEGER: int := 9007199254740991

  predicate SafeInteger(n: int) {
    -MAX_SAFE_INTEGER <= n <= MAX_SAFE_INTEGER
  }
}
