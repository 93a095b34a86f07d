/** Optional values and results, the model's form of None and of raised exceptions. */
module Wrappers {

  datatype Option<+T> = None | Some(value: T)

  datatype Result<+T, +E> = Ok(value: T) | Err(error: E)

  /** The value if there is one, as in `fields.get(name, default)`. */
  function GetOr<T>(field: Option<T>, default: T): T {
    if field.Some? then field.value else default
  }
}
