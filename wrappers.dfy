/** An optional value: JavaScript's `null` / `undefined` where a value may be missing. */
module Wrappers {

  datatype Option<+T> = None | Some(value: T)
}
