/** Option and Result values for the optional arguments and raised exceptions of the source. */
module Wrappers {
  datatype Option<T> = None | Some(value: T)

  datatype Result<T, E> = Ok(value: T) | Err(error: E)

  /** Python truthiness of an optional integer argument: `None` and `0` are falsy. */
  predicate IntTruthy(o: Option<int>) { o.Some? && o.value != 0 }

  /** Python truthiness of an optional string argument: `None` and `""` are falsy. */
  predicate StrTruthy(o: Option<string>) { o.Some? && o.value != "" }
}
