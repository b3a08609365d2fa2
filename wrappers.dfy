/** The optional value used for absent fields, ids and errors. */
module Wrappers {
  datatype Option<T> = None | Some(value: T)
}
