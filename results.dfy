/** Optional values, results, and the failure classification of the
    analysis workflow: every way app.py ends a request with an HTTP error. */
module Results {
  import opened PyJson

  datatype Option<+T> = None | Some(value: T)

  datatype Result<+T, +E> = Ok(value: T) | Err(error: E)

  /** Which remote call of the workflow a failure belongs to. */
  datatype Phase = Upload | RunTask | Polling

  /** Why a response or the result archive could not be used. */
  datatype ParseReason =
    | MissingField(name: string)            // the id or URL is absent or falsy
    | UnexpectedShape                       // a value is not the dict or list the code indexes
    | ScoreFileMissing(names: seq<string>)  // no archive entry ends with the score-file suffix
    | MalformedScoreFile                    // the chosen entry is not valid JSON

  /** Why the image could not be prepared. */
  datatype ImageProblem =
    | Undecodable    // the bytes are not an image the decoder accepts
    | EmptyResize    // the downscale would produce a side of length 0
    | ZeroShortSide  // the shorter side is 0, so `480 / min_side` divides by zero
    | TooLargeToEncode  // a side exceeds what the JPEG encoder accepts

  datatype Failure =
    | InputError(problem: ImageProblem)
    | NetworkError(phase: Phase, reason: string)
    | ParseError(phase: Phase, cause: ParseReason)
    | RemoteTaskFailed(remoteError: Json)
    | Timeout(taskId: Json, maxWait: int)

  /** The HTTP status code the client receives for each failure. */
  function HttpStatus(f: Failure): (code: int)
    ensures code in {400, 408, 500, 502}
    ensures code == 502 <==> f.NetworkError?
    ensures code == 408 <==> f.Timeout?
    ensures code == 400 <==> f.InputError?
  {
    match f
    case InputError(_) => 400
    case NetworkError(_, _) => 502
    case ParseError(_, _) => 500
    case RemoteTaskFailed(_) => 500
    case Timeout(_, _) => 408
  }
}
