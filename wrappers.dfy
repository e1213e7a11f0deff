/** The optional value used for resources that may be absent. */
module Wrappers {
  datatype Option<T> = None | Some(value: T)
}
