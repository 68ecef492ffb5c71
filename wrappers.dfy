/** The optional value shared by the parser and the emitter: Python's
    `None` or a present value. */
module Wrappers {

  datatype Option<T> = None | Some(value: T)
}
