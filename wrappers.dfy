/** The nullable-reference stand-in used throughout the model. */
module Wrappers {

  /** A Java reference that may be null (None) or an Optional that may be empty. */
  datatype Option<+T> = None | Some(value: T)
}
