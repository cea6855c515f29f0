/** Value-or-nothing and value-or-error wrappers: Python's `None` results and absent
    parameters, and the outcome of a request that may be refused. */
module Wrappers {

  datatype Option<T> = None | Some(value: T)

  datatype Result<T, E> = Ok(value: T) | Err(error: E)
}
