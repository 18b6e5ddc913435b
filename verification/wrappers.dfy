/** A value that may be absent: the model's stand-in for `null` and `undefined`. */
module Wrappers {

  datatype Option<+T> = None | Some(value: T)
}
