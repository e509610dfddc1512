/** The absent-or-present value that the source writes as a nullable reference. */
module Optional {

  datatype Option<+T> = None | Some(value: T)
}
