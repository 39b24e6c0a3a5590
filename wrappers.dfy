/** The optional value used for the library's null pointers and "not found" results. */
module Wrappers {

  datatype Option<+T> = None | Some(value: T)

}
