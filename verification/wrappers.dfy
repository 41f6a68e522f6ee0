/** The Option datatype used for Python's `None`-or-value fields. */
module Wrappers {

  /** `None` plays the role of Python's `None`. */
  datatype Option<+T> = None | Some(value: T)
}
