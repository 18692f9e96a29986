/** A value that may be missing: Python's `str | None` and similar. */
module Optional {

  datatype Option<+T> = None | Some(value: T)

}
