/** An optional value: a field that may be absent from a record or a request body. */
module Wrappers {

  datatype Option<+T> = None | Some(value: T)
}
