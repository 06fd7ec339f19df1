/** Result types shared by the models of the services. */
module Wrappers {
  datatype Option<+T> = None | Some(value: T)

  /** The error classes the services throw; the message text is not modelled. */
  datatype Error = NotFound | BadRequest | Conflict | NotAuthorized | NotAuthenticated

  datatype Result<+T> = Ok(value: T) | Err(error: Error)

  /** A column after an update that may name it. */
  function Requested<T>(value: T, requested: Option<T>): T {
    if requested.Some? then requested.value else value
  }
}
