/** The optional value used wherever JavaScript has `undefined` or a parse that can fail. */
module Wrappers {
  datatype Option<+T> = None | Some(value: T)
}
