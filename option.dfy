/** The optional value used for fields and responses that may be absent. */
module Optional {
  datatype Option<T> = None | Some(value: T)
}
