/** The optional value used wherever the services return `null`, read a key that may be unset,
    or hold a field that may be missing. */
module Wrappers {

  datatype Option<+T> = None | Some(value: T)
}
