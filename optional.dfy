/** A value that may be absent: the model's stand-in for a Java `null` or a C `nullptr`. */
module Optional {
  datatype Option<+T> = None | Some(value: T)
}
