/** Optional values and results with an error message, used for the
    places where the modelled code returns `undefined`/`null` or throws. */
module Wrappers {

  datatype Option<+T> = None | Some(value: T) {
    function GetOr(default: T): T {
      match this
      case Some(v) => v
      case None => default
    }
  }

  /** `Fail` carries the message of the error the source would throw. */
  datatype Result<+T> = Ok(value: T) | Fail(message: string)

  /** A JavaScript truthiness test on an optional string: present and not
      empty. */
  predicate Truthy(s: Option<string>) {
    s.Some? && s.value != []
  }
}
