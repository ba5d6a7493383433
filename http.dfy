/** What a request handler ends with when it does not return a body. */
module Http {

  datatype Failure =
    /** A `fastapi.HTTPException`: the status, the `detail` text and the
        `WWW-Authenticate` header when one is set. */
    | HttpException(status: nat, detail: string, wwwAuthenticate: string)
    /** A `ValueError` nothing catches; FastAPI answers it with status 500. */
    | UncaughtValueError
    /** An `OverflowError` nothing catches (BSON refuses an integer that does not
        fit in 64 bits); FastAPI answers it with status 500. */
    | UncaughtOverflowError

  /** The status code the client sees. */
  function StatusCode(f: Failure): nat {
    match f
    case HttpException(status, _, _) => status
    case UncaughtValueError => 500
    case UncaughtOverflowError => 500
  }

  /** `WWW-Authenticate` value of an exception raised without that header. */
  const NoChallenge: string := ""
}
