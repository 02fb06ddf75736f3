/** Option: the "value or nothing" result used where the program either has a
    value or takes a different, non-fatal path (no route, invalid selection). */
module Wrappers {
  datatype Option<+T> = None | Some(value: T)
}
