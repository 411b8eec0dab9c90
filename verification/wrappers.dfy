/** The optional value used throughout the model: a missing payload part,
    an unparsable date, a lookup that did not succeed. */
module Wrappers {
  datatype Option<+T> = None | Some(value: T)
}
