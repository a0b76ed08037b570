/** Small shared datatypes. */
module Wrappers {

  /** A value that may be absent: `null` / `undefined` on the JavaScript side. */
  datatype Option<+T> = None | Some(value: T)
}
