/** Python's optional arguments (`section=None`, `params=None`, `data=None`). */
module Wrappers {

  datatype Option<+T> = None | Some(value: T)
}
