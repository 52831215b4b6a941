/** A value that may be missing: a null pointer, a failed search, a rejected input. */
module Options {
  datatype Option<+T> = None | Some(value: T)
}
