/** An optional value, for results that may be absent (a reply that does not parse, a sleep that does not happen). */
module Wrappers {

  datatype Option<+T> = None | Some(value: T)
}
