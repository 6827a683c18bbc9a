/** A value that may be absent: Python's `Optional[...]` and `None`. */
module Optional {

  datatype Option<+T> = None | Some(value: T)
}
