/** The optional value used for a missing element and for a missing property. */
module Wrappers {

  datatype Option<+T> = None | Some(value: T)
}
