/** Failure-compatible datatypes used across the model. */
module Wrappers {

  /** A value that may be absent: Python's `None` versus a present value. */
  datatype Option<+T> = None | Some(value: T)

  /** The outcome of a Python call that either returns a value or raises. */
  datatype Result<+R, +E> = Success(value: R) | Failure(error: E)
}

/** The Python exceptions the modelled code can raise. */
module Exceptions {

  datatype Exception =
    /** `d[key]` on a dict that lacks `key`. */
    | KeyError(key: string)
    /** `.get` called on a value that is not a dict (a bare float). */
    | AttributeError
    /** Arithmetic or subscripting on a value of the wrong type, or a
        signal handler called with arguments it does not accept. */
    | TypeError
    /** Division by a count of zero. */
    | ZeroDivisionError
}
