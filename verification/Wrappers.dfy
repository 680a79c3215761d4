/** An optional value: Python's `None`, a missing row, a failed lookup. */
module Wrappers {
  datatype Option<+T> = None | Some(value: T)
}
