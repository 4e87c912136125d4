/** A pointer that may be NULL, and other optional values. */
module Options {
  datatype Option<+T> = None | Some(value: T)
}
