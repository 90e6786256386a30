/** The values that may be missing. */
module Options {
  datatype Option<+T> = None | Some(value: T)
}
