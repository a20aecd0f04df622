/** Option, as the Python code's `None`-or-value results. */
module Wrappers {
  datatype Option<+T> = None | Some(value: T)
}
