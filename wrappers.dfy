/** The optional value used for absent entries (Python's None). */
module Wrappers {

  datatype Option<+T> = None | Some(value: T)
}
