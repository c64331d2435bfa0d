/** The optional value used for the source's `T | null` state cells and lookups. */
module Wrappers {
  datatype Option<+T> = None | Some(value: T)
}
