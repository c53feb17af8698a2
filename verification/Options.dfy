/** A value, or nothing. */
module Options {
  datatype Option<+T> = None | Some(value: T)
}
