/** The optional-value type used for the source's `None` returns. */
module Wrappers {
  datatype Option<+T> = None | Some(value: T)
}
