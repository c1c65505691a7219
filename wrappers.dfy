/** The optional value used for the source's `None` and for lookups that may miss. */
module Wrappers {
  datatype Option<+T> = None | Some(value: T)
}
