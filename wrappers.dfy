/** Option: a value that may be absent, used for the null buffer of a failed
    read and for frames that are dropped. */
module Wrappers {

  datatype Option<+T> = None | Some(value: T)
}
