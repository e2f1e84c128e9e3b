/** An optional value: a field that may be unset, or a lookup that may find nothing. */
module Options {
  datatype Option<+T> = None | Some(value: T)
}
