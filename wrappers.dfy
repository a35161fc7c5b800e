/** The "absent" value of the stack's pop and peek (JavaScript's `undefined`). */
module Wrappers {

  datatype Option<+T> = None | Some(value: T)

}
