/** The optional value used for the single storage slot: `None` is a key
    that `localStorage.getItem` reports as absent (`null`). */
module Wrappers {

  datatype Option<+T> = None | Some(value: T)
}
