/** The optional-value datatype used for results that may be undefined. */
module Wrappers {

  /** Either no value, or a value of type T. */
  datatype Option<+T> = None | Some(value: T)
}
