/** The optional-value wrapper used throughout the model. */
module Wrappers {

  /** A value that may be absent, as JavaScript's `undefined`/`null` results are. */
  datatype Option<+T> = None | Some(value: T)
}
