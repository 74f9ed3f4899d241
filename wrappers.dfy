/** A value that may be absent: JavaScript's `null`/`undefined` as seen by `??`. */
module Wrappers {

  datatype Option<+T> = None | Some(value: T)
}
