/** The absent-value sentinel of the source (a nullable reference) as a sum type. */
module Wrappers {

  datatype Option<+T> = None | Some(value: T)
}
