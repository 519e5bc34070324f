/** Option, as used by the other modules for absent values and raised errors. */
module Wrappers {
  datatype Option<+T> = None | Some(value: T)
}
