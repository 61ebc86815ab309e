/** Python's `None`-or-value, as used for every optional field. */
module Wrappers {

  datatype Option<+T> = None | Some(value: T)
}
