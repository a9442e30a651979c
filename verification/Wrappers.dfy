/** What several modules need to say that a value may be missing. */
module Wrappers {
  datatype Option<T> = None | Some(value: T)
}
