/** The optional value used for the source's `T | null` and `T | undefined` state. */
module Wrappers {
  datatype Option<+T> = None | Some(value: T)
}
