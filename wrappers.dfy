/** Small helper datatypes shared by the modules of this model. */
module Wrappers {

  /** A value that may be missing: a NULL pointer or an absent clock in the source. */
  datatype Option<+T> = None | Some(value: T)
}
