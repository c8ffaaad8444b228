/** The optional value used wherever the source has a nullable reference,
    a missing map entry or an operation that can throw. */
module Wrappers {

  datatype Option<+T> = None | Some(value: T)
}
