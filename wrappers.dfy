/** The optional-value datatype used for the start timer and for lookups. */
module Wrappers {
  datatype Option<+T> = None | Some(value: T)
}
