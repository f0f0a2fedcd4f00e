/** Failure-compatible wrapper used for operations whose source raises. */
module Wrappers {

  /** `None` stands for an operation that raised instead of producing a value. */
  datatype Option<+T> = None | Some(value: T)
}
