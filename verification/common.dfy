/** Value wrappers and integer helpers shared by the backend and the client models. */
module Common {

  /** A value that may be absent: Python's `None`, JavaScript's `undefined`. */
  datatype Option<+T> = None | Some(value: T) {

    /** The wrapped value, or `default` when absent. */
    function GetOr(default: T): T {
      match this
      case Some(v) => v
      case None => default
    }
  }

  /** Either a successful value or an error. */
  datatype Result<+T, +E> = Ok(value: T) | Err(error: E)

  /** Why a client request did not deliver a response body. */
  datatype FetchError = NetworkError | HttpError(status: int)

  /**
   * An optional string that both Python and JavaScript treat as true:
   * present and not empty.
   */
  predicate NonEmpty(s: Option<string>) {
    s.Some? && s.value != ""
  }

  function Min(a: int, b: int): int {
    if a <= b then a else b
  }

  function Max(a: int, b: int): int {
    if a >= b then a else b
  }
}
