/** A value that may be missing: C's NULL or negative result. */
module Options {
  datatype Option<T> = None | Some(value: T)
}
