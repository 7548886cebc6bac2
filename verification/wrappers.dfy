/** The optional value that the source's slice lookups return. */
module Wrappers {
  datatype Option<+T> = None | Some(value: T)
}
