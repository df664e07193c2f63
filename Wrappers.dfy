/** Optional values and results shared by every module of the model. */
module Wrappers {
  /** `std::optional<T>`, a null pointer, a JavaScript `undefined`. */
  datatype Option<T> = None | Some(value: T)

  /** `std::expected<T, E>`: a value or an error. */
  datatype Expected<T, E> = Value(value: T) | Unexpected(error: E)
}
