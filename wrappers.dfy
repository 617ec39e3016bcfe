/** Failure-carrying results. The server reports every failure as the text of
    the raised exception, so an error here is its message. */
module Wrappers {

  datatype Option<+T> = None | Some(value: T)

  datatype Result<+T> = Ok(value: T) | Err(msg: string)
}
