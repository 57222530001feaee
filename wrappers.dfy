/** Option and Result, the two failure-carrying types used throughout the model. */
module Wrappers {

  datatype Option<+T> = None | Some(value: T) {
    function GetOr(default: T): T {
      match this
      case Some(v) => v
      case None => default
    }
  }

  datatype Result<+T, +E> = Ok(value: T) | Err(error: E)

  /** Python truthiness of an optional string or list: present and non-empty. */
  predicate Truthy<T>(v: Option<seq<T>>) {
    v.Some? && v.value != []
  }
}
