/** Optional values and the results an operation of the tracker ends with. */
module Outcomes {

  /** A value that may be absent: JavaScript's `undefined` and SQL's `null` both become None. */
  datatype Option<+T> = None | Some(value: T)

  /** The errors the hooks and the storage helpers throw. */
  datatype Failure =
    | NotAuthenticated   // no session user: `new Error("Not authenticated")`
    | BackendError       // the hosted store answered with an error
    | InvalidFileUrl     // a storage URL without the public-object marker

  /** The result of an operation that may throw. */
  datatype Result<+T> = Ok(value: T) | Err(error: Failure)

  /** The message text of the errors the application raises itself. */
  function Message(f: Failure): string
  {
    match f
    case NotAuthenticated => "Not authenticated"
    case InvalidFileUrl => "Invalid file URL"
    case BackendError => "backend error"
  }
}
