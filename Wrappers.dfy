/** The optional value used wherever the game code leaves a field `undefined`. */
module Wrappers {

  datatype Option<+T> = None | Some(value: T)

}
