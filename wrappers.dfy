/** The optional value used by the model: a regular-expression match that may
    be absent, a message list that may be None. */
module Wrappers {

  datatype Option<+T> = None | Some(value: T)
}
