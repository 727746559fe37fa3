/** The optional value used throughout the model for JavaScript's
    `undefined` and for explicit "not found" results. */
module Wrappers {
  datatype Option<+T> = None | Some(value: T)
}
