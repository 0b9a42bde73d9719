/** The optional value used where the services have a nil pointer, a missing row or a None. */
module Options {

  datatype Option<+T> = None | Some(value: T)
}
