/** A value that may be absent: a nullable column, a missing join, an unset query parameter. */
module Options {

  datatype Option<+T> = None | Some(value: T)

}
