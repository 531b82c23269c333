/** The usual optional value, for missing dictionary entries and for calls that raise. */
module Options {
  datatype Option<+T> = None | Some(value: T)
}
