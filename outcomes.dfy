/** Optional values and results shared by every module of the model. */
module Outcomes {

  /** A value that may be absent (JavaScript's `undefined` / `null`). */
  datatype Option<+T> = None | Some(value: T) {
    function GetOr(default: T): T
    {
      match this
      case Some(v) => v
      case None => default
    }
  }

  /** The settled outcome of a promise: resolved with a value or rejected with an error. */
  datatype Result<+T, +E> = Ok(value: T) | Err(error: E)

  /** An argument that the source accepts either as one item or as an array of items. */
  datatype OneOrMany<+T> = One(item: T) | Many(items: seq<T>)

  /** `Array.isArray(x) ? x : [x]` */
  function Normalize<T>(x: OneOrMany<T>): seq<T>
  {
    match x
    case One(item) => [item]
    case Many(items) => items
  }
}
