/** The optional value used for serde lookups and for parsing rendered errors. */
module Wrappers {
  datatype Option<T> = None | Some(value: T)
}
