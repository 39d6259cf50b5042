/** An optional value, shared by the matchers and the session model. */
module Maybe {
  datatype Option<T> = None | Some(value: T)
}
