/** Optional values and results with an error description, standing in for
    Python's `None` and for the exceptions the modelled functions raise. */
module Wrappers {

  datatype Option<+T> = None | Some(value: T)

  /** The Python exception a modelled function raises, by class name. */
  datatype Error =
    | ValueError(message: string)
    | IndexError(message: string)
    | KeyError(key: string)
    | TypeError(message: string)
    | AttributeError(message: string)

  datatype Result<+T> = Ok(value: T) | Err(error: Error)
}
