/** An optional input: a command-line option that may or may not have been given. */
module Optional {
  datatype Option<T> = None | Some(value: T)
}
