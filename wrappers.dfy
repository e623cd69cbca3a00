/** The optional value used wherever the JavaScript has `undefined` or `null`. */
module Wrappers {
  datatype Option<+T> = None | Some(value: T)
}
