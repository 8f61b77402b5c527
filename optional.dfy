/** An optional value: a column an INSERT leaves to the table, a parse that may fail. */
module Optional {
  datatype Option<+T> = None | Some(value: T)
}
