/** The optional value used for nullable fields and for parses that can fail. */
module Wrappers {
  datatype Option<+T> = None | Some(value: T)
}
