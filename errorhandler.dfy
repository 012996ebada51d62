/** The application's last-resort error handler: it turns an error that a
    route passed on into a status and a message. */
module ErrorHandler {
  import opened Common

  /** An error reaching the handler. A database error carries a `code` and,
      for a unique-constraint violation, the names of the columns involved
      (`target`); any other error may carry a `statusCode` and a `message`.
      An empty code or message and a statusCode of 0 stand for the
      JavaScript values that test false ("not set"). */
  datatype AppError = AppError(code: string, target: seq<string>, statusCode: nat, message: string)

  /** The status and JSON fields of the handler's reply. */
  datatype ErrorReply = ErrorReply(status: nat, message: string, field: Option<string>, code: Option<string>)

  const UniqueViolation := "P2002"
  const RecordMissing := "P2025"
  const DefaultMessage := "Something went wrong on the server"
  const DuplicateMessage := "Resource already exists with this unique constraint"
  const MissingMessage := "Resource not found"

  /** A database error with the given code. */
  function DbError(code: string, target: seq<string>): AppError {
    AppError(code, target, 0, "")
  }

  function HandleError(e: AppError): (r: ErrorReply)
    ensures e.code == UniqueViolation ==>
              r == ErrorReply(409, DuplicateMessage, if |e.target| > 0 then Some(e.target[0]) else None, None)
    ensures e.code == RecordMissing ==> r == ErrorReply(404, MissingMessage, None, None)
    ensures e.code != "" && e.code != UniqueViolation && e.code != RecordMissing ==>
              r == ErrorReply(500, "Database error", None, Some(e.code))
    ensures e.code == "" ==>
              && r.status == (if e.statusCode != 0 then e.statusCode else 500)
              && r.message == (if e.message != "" then e.message else DefaultMessage)
              && r.field == None && r.code == None
  {
    if e.code != "" then
      if e.code == UniqueViolation then
        ErrorReply(409, DuplicateMessage, if |e.target| > 0 then Some(e.target[0]) else None, None)
      else if e.code == RecordMissing then
        ErrorReply(404, MissingMessage, None, None)
      else
        ErrorReply(500, "Database error", None, Some(e.code))
    else
      ErrorReply(if e.statusCode != 0 then e.statusCode else 500,
                 if e.message != "" then e.message else DefaultMessage, None, None)
  }

  /** The reply a route sends when it passes `e` on. */
  function Forward<T>(e: AppError): (r: Reply<T>)
    ensures r.Fail? && r.Status() == HandleError(e).status && r.message == HandleError(e).message
  {
    var h := HandleError(e);
    Fail(h.status, h.message)
  }

  /** A database error is reported by its code alone: its own message and
      status never reach the caller, and its status is 404, 409 or 500. */
  lemma DatabaseErrorsHideDetail(e1: AppError, e2: AppError)
    requires e1.code != "" && e1.code == e2.code && e1.target == e2.target
    ensures HandleError(e1) == HandleError(e2)
    ensures HandleError(e1).status in {404, 409, 500}
  {
  }
}
