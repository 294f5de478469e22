/** The optional-value datatype used for label lookups and label parsing. */
module Wrappers {

  datatype Option<+T> = None | Some(value: T)
}
