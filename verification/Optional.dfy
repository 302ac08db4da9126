/** A value that may be missing. */
module Optional {
  datatype Option<+A> = None | Some(value: A)
}
