/** An optional value, for nullable columns, missing keys and unset variables. */
module Options {
  datatype Option<+T> = None | Some(value: T)
}
