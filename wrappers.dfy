/** Failure-compatible return types shared by the modules of this model. */
module Wrappers {

  datatype Option<+T> = None | Some(value: T)

  /** A value, or the error a throwing call (or a failed schema parse) produces. */
  datatype Result<+T, +E> = Success(value: T) | Failure(error: E)

  /** The name `key` of a field when its check failed, nothing when it passed: a piece of a schema's error list. */
  function Failed(ok: bool, key: string): (keys: seq<string>)
    ensures key in keys <==> !ok
    ensures forall k :: k in keys ==> k == key
  {
    if ok then [] else [key]
  }
}
