/** The usual Some/None wrapper, used for "not found" and "not a number" results. */
module Optional {
  datatype Option<+T> = None | Some(value: T)
}
