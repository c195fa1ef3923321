/** Null-able values and fallible results, the two shapes the modelled
    code uses for `T | null` and for "throw an Error". */
module Optional {

  /** `T | null` (and `T | undefined`) in the modelled TypeScript. */
  datatype Option<+T> = None | Some(value: T) {

    function GetOr(default: T): T {
      match this
      case Some(v) => v
      case None => default
    }
  }

  /** JavaScript truthiness of a `string | null`: null and "" are both falsy. */
  predicate IsSet(s: Option<string>) {
    s.Some? && s.value != ""
  }

  /** A call that either returns a value or throws an `Error` with a message. */
  datatype Result<+T, +E> = Success(value: T) | Failure(error: E)
}
