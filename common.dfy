/** Small shared vocabulary: optional values. */
module Common {

  /** A value that may be absent, as Python's `None` stands for "no value". */
  datatype Option<+T> = None | Some(value: T)
}
