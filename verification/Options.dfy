/** A value that may be missing: what the source returns as a pointer that may be NULL. */
module Options {

  datatype Option<+T> = None | Some(value: T)
}
