/** The optional value used for the results of parsers and look-ups. */
module Wrappers {
  datatype Option<+T> = None | Some(value: T)
}
