/** A value that may be missing: `undefined`, `null` or a failure, depending on the caller. */
module Optional {
  datatype Option<+T> = None | Some(value: T)
}
