/** A value that may be missing: a null pointer, or an operation that can fail. */
module Options {
  datatype Option<+T> = Some(value: T) | None
}
