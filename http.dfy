/** The request/response vocabulary shared by the route handlers: the
    JavaScript `Error` a handler passes to `next`, the `createError` helper
    each route file defines, and what a handler does with a request. */
module Http {
  import opened Wrappers

  /** A thrown or forwarded `Error`, as the central error handler reads it.
      `stack` is the V8 stack trace; its first line is `"Error: " + message`
      and the frames below it are not modelled. */
  datatype Error = Error(
    statusCode: Option<int>,
    status: Option<int>,
    message: Option<string>,
    stack: string)

  /** `createError(statusCode, message)`: an `Error` with the message and
      `statusCode` set; `status` stays unset. */
  function CreateError(statusCode: int, message: string): (e: Error)
    ensures e.statusCode == Some(statusCode) && e.status.None?
    ensures e.message == Some(message)
  {
    Error(Some(statusCode), None, Some(message), "Error: " + message)
  }

  /** A handler either sends a response or forwards an error with `next(err)`. */
  datatype Reply<T> = Respond(status: int, body: T) | Next(error: Error)
}
