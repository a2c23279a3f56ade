/** The optional value used wherever the source has `T | undefined` or `T | null`. */
module Optional {
  datatype Option<T> = None | Some(value: T)
}
