/** Option and result values shared by the modules of the bridge. */
module Outcomes {

  datatype Option<+T> = None | Some(value: T)

  /** The outcome of a call that may raise: `Err` carries the exception's
      text, which the routes hand back to the client verbatim. */
  datatype Result<+T> = Ok(value: T) | Err(msg: string)

  /** The JSON body of a route that answers with a status and a message. */
  datatype Reply = StatusOk(message: string) | StatusError(message: string)
}
