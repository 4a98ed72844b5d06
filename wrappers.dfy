/** The optional value that the store's `get` and the statistics return. */
module Wrappers {
  datatype Option<+T> = None | Some(value: T)
}
