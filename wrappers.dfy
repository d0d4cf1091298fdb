// The optional value used for "found / not found".

module Wrappers {
  datatype Option<T> = None | Some(value: T)
}
