/** Small helper datatypes shared by the quiz modules. */
module Wrappers {

  /** A value that may be absent; stands for JavaScript's `null`. */
  datatype Option<+T> = None | Some(value: T)
}
