/** The optional value used wherever the original returns `null` or `undefined`. */
module Wrappers {
  datatype Option<T> = None | Some(value: T)
}
