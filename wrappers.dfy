/** Optional values and results with an error message, the two shapes in which
    the page's asynchronous calls either resolve or throw. */
module Wrappers {

  datatype Option<+T> = None | Some(value: T)

  /** A call that resolves with `value` or throws an `Error` whose message is `error`. */
  datatype Result<+T> = Success(value: T) | Failure(error: string)

  /** JavaScript truthiness of an optional string field: present and non-empty. */
  predicate Truthy(o: Option<string>)
  {
    o.Some? && o.value != ""
  }
}
