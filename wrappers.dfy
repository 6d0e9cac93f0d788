/** The optional value used for a block's base fee and for "no priority fee yet". */
module Wrappers {

  datatype Option<+T> = None | Some(value: T)
}
