/** The optional value used wherever the source has a nullable field or an absent key. */
module Options {

  datatype Option<+T> = None | Some(value: T)
}
