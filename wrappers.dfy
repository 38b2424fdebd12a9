/** An optional result, used where the source may return `None`. */
module Wrappers {

  datatype Option<+T> = None | Some(value: T)
}
