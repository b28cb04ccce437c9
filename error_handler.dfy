/**
 * The error-handling middleware: how a thrown error becomes a status code and
 * a message. The handler runs its checks one after another, each overriding
 * the previous ones; `Classify` states the same outcome as a priority list
 * (the last check that matches wins), and the handler is proved to agree.
 */
module ErrorHandler {
  import opened Wrappers
  import Js

  /**
   * The fields of an error the handler reads. `keyFields` are the keys of
   * `keyValue` in order, `errorMessages` the messages of `errors` in order;
   * an absent `statusCode` or `code` is `None`.
   */
  datatype ErrorInfo = ErrorInfo(
    name: string,
    message: Option<string>,
    statusCode: Option<int>,
    code: Option<int>,
    keyFields: seq<string>,
    errorMessages: seq<string>)

  /** The JSON body is always `{ success: false, message }`. */
  datatype Response = Response(statusCode: int, message: string)

  /** `err.statusCode || 500`: 0 is falsy too. */
  function StatusOr500(s: Option<int>): (r: int)
    ensures s.Some? && s.value != 0 ==> r == s.value
    ensures s.None? || s.value == 0 ==> r == 500
  {
    if s.Some? && s.value != 0 then s.value else 500
  }

  /** `${Object.keys(err.keyValue)[0]}`: the first key, or "undefined" when there is none. */
  function FirstField(keyFields: seq<string>): string {
    if keyFields == [] then "undefined" else keyFields[0]
  }

  function DuplicateMessage(keyFields: seq<string>): string {
    "Duplicate field value: " + FirstField(keyFields) + ". Please use another value."
  }

  /**
   * The outcome by priority: the token errors, then validation, then a
   * duplicate key, then a cast error, then the error's own fields. Every
   * answer carries a real status; a 500 comes only from an error no check
   * recognises, and a 404 only from a cast error or an error that asked for one.
   */
  function Classify(err: ErrorInfo): (r: Response)
    ensures r.statusCode != 0
    ensures r.statusCode == 500 ==>
      err.name !in {"CastError", "ValidationError", "JsonWebTokenError", "TokenExpiredError"} && err.code != Some(11000)
    ensures r.statusCode == 404 ==> err.name == "CastError" || err.statusCode == Some(404)
  {
    if err.name == "TokenExpiredError" then Response(401, "Token expired")
    else if err.name == "JsonWebTokenError" then Response(401, "Invalid token")
    else if err.name == "ValidationError" then Response(400, Js.Join(err.errorMessages, ", "))
    else if err.code == Some(11000) then Response(400, DuplicateMessage(err.keyFields))
    else if err.name == "CastError" then Response(404, "Resource not found")
    else Response(StatusOr500(err.statusCode), Js.Or(err.message, Some("Internal Server Error")).value)
  }

  /** `errorHandler`: defaults, then five checks in sequence, each overriding what came before. */
  method HandleError(err: ErrorInfo) returns (res: Response)
    ensures res == Classify(err)
  {
    var statusCode := if err.statusCode.Some? && err.statusCode.value != 0 then err.statusCode.value else 500;
    var message := if err.message.Some? && err.message.value != "" then err.message.value else "Internal Server Error";
    if err.name == "CastError" {
      message := "Resource not found";
      statusCode := 404;
    }
    if err.code == Some(11000) {
      var field := if |err.keyFields| > 0 then err.keyFields[0] else "undefined";
      message := "Duplicate field value: " + field + ". Please use another value.";
      statusCode := 400;
    }
    if err.name == "ValidationError" {
      message := Js.Join(err.errorMessages, ", ");
      statusCode := 400;
    }
    if err.name == "JsonWebTokenError" {
      message := "Invalid token";
      statusCode := 401;
    }
    if err.name == "TokenExpiredError" {
      message := "Token expired";
      statusCode := 401;
    }
    res := Response(statusCode, message);
  }

  /** An error none of the checks recognise keeps its own status (else 500) and message (else 'Internal Server Error'). */
  lemma UnrecognisedKeepsOwnFields(err: ErrorInfo)
    requires err.name !in {"CastError", "ValidationError", "JsonWebTokenError", "TokenExpiredError"}
    requires err.code != Some(11000)
    ensures Classify(err).statusCode == (if err.statusCode.Some? && err.statusCode.value != 0 then err.statusCode.value else 500)
    ensures Classify(err).message == (if err.message.Some? && err.message.value != "" then err.message.value else "Internal Server Error")
  {
  }

  /** A cast error is a 404 'Resource not found', unless it also carries the duplicate-key code. */
  lemma CastErrorIsNotFound(err: ErrorInfo)
    requires err.name == "CastError" && err.code != Some(11000)
    ensures Classify(err) == Response(404, "Resource not found")
  {
  }

  /** A duplicate key is a 400 naming the first duplicated field, whatever the error's own status, unless a later check matches. */
  lemma DuplicateKeyIsBadRequest(err: ErrorInfo, field: string, more: seq<string>)
    requires err.code == Some(11000) && err.keyFields == [field] + more
    requires err.name !in {"ValidationError", "JsonWebTokenError", "TokenExpiredError"}
    ensures Classify(err) == Response(400, "Duplicate field value: " + field + ". Please use another value.")
  {
  }

  /** A validation error is a 400 whose message lists every field message, separated by ", ". */
  lemma ValidationListsEveryMessage(err: ErrorInfo)
    requires err.name == "ValidationError"
    ensures Classify(err).statusCode == 400
    ensures Classify(err).message == Js.Join(err.errorMessages, ", ")
    ensures |err.errorMessages| == 1 ==> Classify(err).message == err.errorMessages[0]
  {
  }

  /** Both token errors are 401s, and they override a duplicate-key code: the last matching check wins. */
  lemma TokenErrorsAreUnauthorized(err: ErrorInfo)
    requires err.name == "JsonWebTokenError" || err.name == "TokenExpiredError"
    ensures Classify(err).statusCode == 401
    ensures Classify(err).message == if err.name == "JsonWebTokenError" then "Invalid token" else "Token expired"
  {
  }

  /** Every status the handler sends is one of 400, 401, 404, the error's own non-zero status, or 500. */
  lemma StatusIsOneOfKnown(err: ErrorInfo)
    ensures var s := Classify(err).statusCode;
      s in {400, 401, 404, 500} || (err.statusCode.Some? && s == err.statusCode.value && s != 0)
  {
  }

  /** `notFound`: an `ApiError` for an unmatched route; its name is the inherited 'Error'. */
  function NotFound(originalUrl: string): (err: ErrorInfo)
    ensures err.statusCode == Some(404)
  {
    ErrorInfo("Error", Some("Not found - " + originalUrl), Some(404), None, [], [])
  }

  /** An unmatched route always answers 404 with the URL in the message. */
  lemma NotFoundAnswers404(originalUrl: string)
    ensures Classify(NotFound(originalUrl)) == Response(404, "Not found - " + originalUrl)
  {
  }
}
