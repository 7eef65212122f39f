/** The optional value used for a buffer, a decoder result or a route that may be absent. */
module Wrappers {
  datatype Option<T> = None | Some(value: T)
}
