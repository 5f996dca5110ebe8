/** Shared result shapes: JavaScript's optional values and the two-slot
    `ResultOrError` tuple that every fetch helper returns (src/lib/types.ts). */
module Types {

  /** A value that may be absent (`undefined` or `null` in the source). */
  datatype Option<+T> = None | Some(value: T) {

    /** The `??` operator: the value, or `default` when absent. */
    function GetOr(default: T): T {
      match this
      case Some(v) => v
      case None => default
    }
  }

  /** `[T, null] | [null, E]`: exactly one of the two slots is filled. */
  datatype ResultOrError<+T, +E> = Ok(value: T) | Err(error: E) {

    /** Slot `[0]` of the tuple. */
    function First(): (r: Option<T>)
      ensures r.Some? <==> Ok?
      ensures Ok? ==> r == Some(value)
    {
      match this
      case Ok(v) => Some(v)
      case Err(_) => None
    }

    /** Slot `[1]` of the tuple. */
    function Second(): (r: Option<E>)
      ensures r.Some? <==> Err?
      ensures Err? ==> r == Some(error)
    {
      match this
      case Ok(_) => None
      case Err(e) => Some(e)
    }
  }
}
