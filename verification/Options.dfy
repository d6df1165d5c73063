module Options {
  /** A value that may be missing: a null pointer, an optional callback. */
  datatype Option<T> = None | Some(value: T)
}
