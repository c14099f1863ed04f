/** Shared result types. */
module Wrappers {
  /** A pointer or value that may be missing. */
  datatype Option<+T> = None | Some(value: T)
}
