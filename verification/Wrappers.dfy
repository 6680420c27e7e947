/** The optional value used throughout: a missing field, an unparsable text, a null column. */
module Wrappers {

  datatype Option<+T> = None | Some(value: T)
}
