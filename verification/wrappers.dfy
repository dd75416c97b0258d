/** The optional value used for the source's "missing or wrong kind" cases. */
module Wrappers {
  datatype Option<+T> = None | Some(value: T)
}
