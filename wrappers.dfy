/** The optional value used by the scanner and the classifier. */
module Wrappers {
  datatype Option<+T> = None | Some(value: T)
}
