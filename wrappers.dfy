/** Option datatype standing for JavaScript's "value or null/undefined". */
module Wrappers {
  datatype Option<+T> = None | Some(value: T)
}
