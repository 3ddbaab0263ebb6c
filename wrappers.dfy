/** Option and Result for absent values and for the exceptions the script can raise. */
module Wrappers {

  datatype Option<+T> = None | Some(value: T)

  datatype Result<+T, +E> = Success(value: T) | Failure(error: E)

  /** The two exceptions the modelled code can raise: a dictionary lookup of a
      missing key, and a modulo by zero. */
  datatype Exception = KeyError(key: string) | ZeroDivisionError
}
