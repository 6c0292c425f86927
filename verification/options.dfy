/** Python's `None`-or-value, used for the optional timeout and the optional checkpoint. */
module Options {
  datatype Option<+T> = None | Some(value: T)
}
