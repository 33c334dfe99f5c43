/** Small helper datatypes shared by the other modules. */
module Wrappers {

  /** An optional value: `None` plays the role of a null pointer or a missing entry. */
  datatype Option<+T> = None | Some(value: T)
}
