/** A value that may be missing; None stands for a null pointer or for a call that panics. */
module Wrappers {
  datatype Option<+T> = None | Some(value: T)
}
