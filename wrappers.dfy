/** Option, used for a value that may be absent: a null node, a missing child, a failed library call. */
module Wrappers {
  datatype Option<T> = None | Some(value: T)
}
