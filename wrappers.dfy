/**
 * Optional values and fallible results, used wherever the TypeScript code
 * returns `undefined`/`null` or throws.
 */
module Wrappers {

  datatype Option<T> = None | Some(value: T)
  {
    function UnwrapOr(default: T): T
    {
      match this
      case Some(v) => v
      case None => default
    }
  }

  datatype Result<T, E> = Success(value: T) | Failure(error: E)
  {
    predicate IsFailure()
    {
      Failure?
    }
  }

  /** JavaScript truthiness of an optional string: present and non-empty. */
  predicate Truthy(s: Option<string>)
  {
    s.Some? && s.value != ""
  }

  /** SQL `COALESCE(patch, stored)`: a provided value replaces, an absent one keeps. */
  function Coalesce<T>(patch: Option<T>, stored: Option<T>): Option<T>
  {
    if patch.Some? then patch else stored
  }
}
