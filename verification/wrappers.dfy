/** The Option datatype used for values a Python dictionary lookup may
    find missing (`dict.get` returning None). */
module Wrappers {

  datatype Option<+T> = None | Some(value: T)

}
