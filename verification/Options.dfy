/** The optional value used throughout the model for nullable columns and absent entries. */
module Options {
  datatype Option<+T> = None | Some(value: T)
}
