/** A value that may be absent: a null pointer, a missing entry, an event not attached. */
module Options {
  datatype Option<T> = None | Some(value: T)
}
