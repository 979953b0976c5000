/** Option and Result, the two failure-carrying types the resolver uses.
    `Result` carries a string error, as every fallible call in the extension does. */
module Wrappers {

  datatype Option<+T> = None | Some(value: T)

  datatype Result<+T> = Ok(value: T) | Err(msg: string)
}
