/** Option, used where the source returns `False` or nothing instead of a row. */
module Wrappers {
  datatype Option<+T> = None | Some(value: T)
}
