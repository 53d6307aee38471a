/** The optional value used where the JavaScript source yields `undefined`,
    `null`, `NaN` or a failed match. */
module Wrappers {
  datatype Option<+T> = None | Some(value: T)
}
