/** Option and Result, used for the optional command-line argument, the optional
    parse of the definition file and the exceptions the merge can raise. */
module Wrappers {

  datatype Option<+T> = None | Some(value: T)

  datatype Result<+R, +E> = Ok(value: R) | Err(error: E)
}
