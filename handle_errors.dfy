/** The terminal error handler of src/middleware/handleErrors.ts. */
module HandleErrors {
  import opened Wrappers
  import opened Errors

  /** The error envelope `{success, message, errorCode}`. */
  datatype ErrorResult = ErrorResult(success: bool, message: string, errorCode: int)

  /** The envelope together with the HTTP status it is sent with. */
  datatype ErrorReply = ErrorReply(status: int, body: ErrorResult)

  const UnexpectedError := "Unexpected error"
  const ServerErrorCode := 500

  /**
   * Every forwarded failure becomes a 500 with success false. The message is the Error's own
   * message, or a fixed one for a thrown non-Error; the code is the thrown value's code when
   * that is truthy, and 500 when it is missing or 0, so the reported code is never 0.
   */
  function HandleError(e: Thrown): (r: ErrorReply)
    ensures r.status == 500 && !r.body.success
    ensures r.body.message == if e.message.Some? then e.message.value else UnexpectedError
    ensures r.body.errorCode != 0
    ensures e.code.Some? && e.code.value != 0 ==> r.body.errorCode == e.code.value
    ensures e.code.None? || e.code.value == 0 ==> r.body.errorCode == ServerErrorCode
  {
    var errMsg := match e.message case Some(m) => m case None => UnexpectedError;
    var errCode := if e.code.Some? && e.code.value != 0 then e.code.value else ServerErrorCode;
    ErrorReply(500, ErrorResult(false, errMsg, errCode))
  }
}
