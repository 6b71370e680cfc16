/** The optional value used wherever the application has a nullable column or a missing field. */
module Optional {

  datatype Option<+T> = None | Some(value: T)
}
