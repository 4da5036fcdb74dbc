/** A value or none, where the C code has a pointer or NULL. */
module Options {
  datatype Option<+T> = None | Some(value: T)
}
