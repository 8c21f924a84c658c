/** The optional-value datatype used for parse results and random picks. */
module Wrappers {
  datatype Option<+T> = None | Some(value: T)
}
