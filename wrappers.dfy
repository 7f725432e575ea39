/** The optional value used for player slots, winners and emitted events. */
module Wrappers {

  datatype Option<+T> = None | Some(value: T)
}
