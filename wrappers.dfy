/** An optional value: the model's reading of a nullable GraphQL field. */
module Wrappers {
  datatype Option<+T> = None | Some(value: T)
}
