/**
 * The error middleware of src/api/middleware/errorHandler.ts: how an error
 * is classified into a status and a message, what the JSON body carries, and
 * the four error classes that fix their own status.  Logging, the clock and
 * the Express objects are left to the caller: the timestamp, the request's
 * path and method and `NODE_ENV` arrive as parameters.
 */
module ErrorHandler {
  import opened Common

  /** One zod issue: its path (numeric segments already printed), message and code. */
  datatype ZodIssue = ZodIssue(path: seq<string>, message: string, code: string)

  /**
   * The errors the handler sees: a `ZodError`, or any other `Error` with an
   * optional `statusCode`, whose `name` the handler never reads.
   */
  datatype ApiError =
    | ZodError(issues: seq<ZodIssue>, stack: Option<string>)
    | Failure(name: string, message: string, statusCode: Option<int>, stack: Option<string>)

  /** `{ field, message, code }` of one detail entry. */
  datatype Detail = Detail(field: string, message: string, code: string)

  /** The status, the message and the details the if/else chain settles on. */
  datatype Outcome = Outcome(status: int, message: string, details: Option<seq<Detail>>)

  /** `if (error.statusCode)`: absent and 0 are both falsy. */
  predicate HasStatus(e: ApiError)
  {
    e.Failure? && e.statusCode.Some? && e.statusCode.value != 0
  }

  /** `err.path.join('.')` with the issue's own message and code. */
  function DetailOf(issue: ZodIssue): Detail
  {
    Detail(Join(issue.path, "."), issue.message, issue.code)
  }

  /** The classification of `errorHandler`. */
  function Classify(e: ApiError): (r: Outcome)
    ensures r.details.Some? <==> e.ZodError?
  {
    if e.ZodError? then Outcome(400, "Validation Error", Some(MapSeq(e.issues, DetailOf)))
    else if HasStatus(e) then Outcome(e.statusCode.value, e.message, None)
    else if Contains(e.message, "ENOENT") then Outcome(404, "Resource not found", None)
    else if Contains(e.message, "timeout") then Outcome(408, "Request timeout", None)
    else if Contains(e.message, "ECONNREFUSED") then Outcome(503, "Service unavailable", None)
    else Outcome(500, "Internal Server Error", None)
  }

  /** A zod error is a 400 with one detail per issue, each naming the issue's dotted path. */
  lemma ZodErrorsAreValidation(issues: seq<ZodIssue>, stack: Option<string>)
    ensures var r := Classify(ZodError(issues, stack));
            && r.status == 400 && r.message == "Validation Error"
            && r.details.Some? && |r.details.value| == |issues|
            && forall i | 0 <= i < |issues| ::
                 r.details.value[i] == Detail(Join(issues[i].path, "."), issues[i].message, issues[i].code)
  {
  }

  /** A status of its own wins over every message test, and brings the error's own message. */
  lemma OwnStatusWins(e: ApiError)
    requires HasStatus(e)
    ensures Classify(e) == Outcome(e.statusCode.value, e.message, None)
  {
  }

  /**
   * Without a status, the message is searched for `ENOENT`, then `timeout`,
   * then `ECONNREFUSED`, the first match deciding, and nothing matching
   * gives 500.
   */
  lemma MessageTestsInOrder(e: ApiError)
    requires e.Failure? && !HasStatus(e)
    ensures Contains(e.message, "ENOENT") ==> Classify(e) == Outcome(404, "Resource not found", None)
    ensures !Contains(e.message, "ENOENT") && Contains(e.message, "timeout") ==>
              Classify(e) == Outcome(408, "Request timeout", None)
    ensures !Contains(e.message, "ENOENT") && !Contains(e.message, "timeout") && Contains(e.message, "ECONNREFUSED") ==>
              Classify(e) == Outcome(503, "Service unavailable", None)
    ensures Classify(e).status == 500 <==>
              !Contains(e.message, "ENOENT") && !Contains(e.message, "timeout") && !Contains(e.message, "ECONNREFUSED")
  {
  }

  /** A status of 0 is falsy: it falls through to the message tests, and a plain message gives 500. */
  lemma ZeroStatusFallsThrough(message: string)
    requires !Contains(message, "ENOENT") && !Contains(message, "timeout") && !Contains(message, "ECONNREFUSED")
    ensures Classify(Failure("Error", message, Some(0), None)) == Outcome(500, "Internal Server Error", None)
  {
  }

  /** An error whose message mentions both a missing file and a timeout is a 404: the earlier test wins. */
  lemma MissingFileBeforeTimeout()
    ensures Classify(Failure("Error", "ENOENT: timeout", None, None)).status == 404
  {
    assert OccursAt("ENOENT: timeout", "ENOENT", 0);
  }

  // ---- the response body ----

  /** `error: {...}` of the JSON body; `verb` is its `method` field, the request's HTTP method. */
  datatype Body = Body(
    message: string,
    statusCode: int,
    timestamp: string,
    path: string,
    verb: string,
    details: Option<seq<Detail>>,
    stack: Option<string>)

  function StackOf(e: ApiError): Option<string>
  {
    match e
    case ZodError(_, s) => s
    case Failure(_, _, _, s) => s
  }

  /** The body `res.status(statusCode).json(...)` sends, with the status it is sent under. */
  function Respond(e: ApiError, timestamp: string, path: string, verb: string, nodeEnv: Option<string>): (r: (int, Body))
    ensures r.0 == r.1.statusCode == Classify(e).status
    ensures r.1.message == Classify(e).message
    ensures r.1.details.Some? <==> e.ZodError?
    ensures r.1.stack.Some? ==> nodeEnv == Some("development")
    ensures nodeEnv != Some("development") ==> r.1.stack == None
  {
    var o := Classify(e);
    (o.status, Body(o.message, o.status, timestamp, path, verb, o.details,
                    if nodeEnv == Some("development") then StackOf(e) else None))
  }

  /** In development the error's stack is sent as it is; elsewhere never. */
  lemma StackOnlyInDevelopment(e: ApiError, timestamp: string, path: string, verb: string, nodeEnv: Option<string>)
    ensures Respond(e, timestamp, path, verb, nodeEnv).1.stack == (if nodeEnv == Some("development") then StackOf(e) else None)
  {
  }

  // ---- the error classes ----

  /** `new ValidationError(message)` */
  function ValidationError(message: string): (e: ApiError)
    ensures e.Failure? && e.statusCode == Some(400) && e.message == message
  {
    Failure("ValidationError", message, Some(400), None)
  }

  /** `new NotFoundError(message?)` */
  function NotFoundError(message: Option<string>): (e: ApiError)
    ensures e.Failure? && e.statusCode == Some(404)
    ensures e.message == (if message.Some? then message.value else "Resource not found")
  {
    Failure("NotFoundError", if message.Some? then message.value else "Resource not found", Some(404), None)
  }

  /** `new RenderError(message?)` */
  function RenderError(message: Option<string>): (e: ApiError)
    ensures e.Failure? && e.statusCode == Some(500)
    ensures e.message == (if message.Some? then message.value else "Failed to render carousel")
  {
    Failure("RenderError", if message.Some? then message.value else "Failed to render carousel", Some(500), None)
  }

  /** `new TextProcessingError(message?)` */
  function TextProcessingError(message: Option<string>): (e: ApiError)
    ensures e.Failure? && e.statusCode == Some(422)
    ensures e.message == (if message.Some? then message.value else "Failed to process text")
  {
    Failure("TextProcessingError", if message.Some? then message.value else "Failed to process text", Some(422), None)
  }

  /**
   * Each class is answered with its own status and its own message, whatever
   * the message says: a render error about a timeout is still a 500.
   */
  lemma ClassesKeepTheirStatus(message: string, given: Option<string>)
    ensures Classify(ValidationError(message)) == Outcome(400, message, None)
    ensures Classify(NotFoundError(given)).status == 404
    ensures Classify(RenderError(given)).status == 500
    ensures Classify(TextProcessingError(given)).status == 422
    ensures Classify(NotFoundError(None)).message == "Resource not found"
    ensures Classify(RenderError(None)).message == "Failed to render carousel"
    ensures Classify(TextProcessingError(None)).message == "Failed to process text"
  {
  }
}
