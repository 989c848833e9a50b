/** A value that may be missing; `None` stands for JavaScript's `undefined`. */
module Optional {
  datatype Option<+T> = None | Some(value: T)
}
