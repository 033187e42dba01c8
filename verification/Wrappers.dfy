/**
  A value that may be absent: a missing key, an error return, an unset time.
*/
module Wrappers {
  datatype Option<T> = None | Some(value: T)
}
