/** The optional value used for "not found" and "does not decode". */
module Wrappers {

  datatype Option<T> = None | Some(value: T)
}
