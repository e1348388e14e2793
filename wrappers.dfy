/** Option, standing for the source's `null`/`undefined` values and for JavaScript's NaN. */
module Wrappers {
  datatype Option<+T> = None | Some(value: T)
}
