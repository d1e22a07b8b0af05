/** A value that may be absent: a missing document, header or storage entry. */
module Wrappers {

  datatype Option<+T> = None | Some(value: T)
}
