/** The optional value used wherever the source may get `None` back or an
    operation may fail. */
module Wrappers {

  datatype Option<+T> = None | Some(value: T)
}
