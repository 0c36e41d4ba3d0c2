/** The optional back-reference of a Step: Python's `Optional[Step]`. */
module Wrappers {
  datatype Option<+T> = None | Some(value: T)
}
