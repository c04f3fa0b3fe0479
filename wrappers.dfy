/** Optional values and fallible results.  `Err` carries the message text that
    the Python code would put into the exception it raises (`str(e)`). */
module Wrappers {

  datatype Option<+T> = None | Some(value: T)

  datatype Result<+T> = Ok(value: T) | Err(message: string)
}
