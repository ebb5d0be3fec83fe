/** A value that may be missing: a default of None, or a call that raised. */
module Wrappers {

  datatype Option<T> = None | Some(value: T)
}
