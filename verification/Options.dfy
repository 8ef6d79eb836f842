/** A value that may be missing: NULL pointers, lookups that fail. */
module Options {
  datatype Option<T> = None | Some(value: T)
}
