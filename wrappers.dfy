/** The optional value used for the codec's "ok or error" returns and for lookups. */
module Wrappers {

  datatype Option<+T> = None | Some(value: T)
}
