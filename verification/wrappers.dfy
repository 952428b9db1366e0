/** Optional values: the model's stand-in for JavaScript's `null`, `undefined`
    and empty-string "nothing selected" values. */
module Wrappers {

  datatype Option<+T> = None | Some(value: T)
}
