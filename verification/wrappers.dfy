/** The optional result of a lookup: the `undefined` that `Array.find` gives in `getJobById` becomes `None`. */
module Wrappers {

  datatype Option<+T> = None | Some(value: T)
}
