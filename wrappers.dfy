/** Python's `None` for optional arguments. */
module Wrappers {

  datatype Option<T> = None | Some(value: T)
}
