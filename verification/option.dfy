/** An optional value: a file that may be missing, a record that may be absent. */
module Optional {
  datatype Option<T> = None | Some(value: T)
}
