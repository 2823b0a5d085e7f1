/** The central mapping from a thrown exception to the HTTP reply the API sends. */
module ExceptionHandler {
  import opened Wrappers
  import opened Errors

  /** The JSON error body; `errors` is null except for a rejected request body. */
  datatype ErrorResponse = ErrorResponse(message: string, status: int, errors: Option<seq<string>>)

  datatype Reply = Reply(status: int, body: ErrorResponse)

  const GenericMessage: string := "An unexpected error occurred"

  function Handle(f: Failure): (r: Reply)
    // the body always repeats the status of the reply
    ensures r.body.status == r.status
    // each application exception keeps its own message; only a rejected body carries field messages
    ensures !f.ValidationFailed? && !f.Internal? ==> r.body.message == f.message && r.body.errors == None
    ensures f.ValidationFailed? ==> r.body.message == "Validation failed" && r.body.errors == Some(f.fieldMessages)
    // an unexpected exception reveals nothing of its cause
    ensures f.Internal? ==> r.body == ErrorResponse(GenericMessage, 500, None)
    // the status for each kind
    ensures f.ResourceNotFound? ==> r.status == 404
    ensures f.Forbidden? ==> r.status == 403
    ensures f.Conflict? ==> r.status == 409
    ensures f.UnprocessableEntity? ==> r.status == 422
    ensures f.ValidationFailed? || f.IllegalArgument? ==> r.status == 400
  {
    match f
    case ResourceNotFound(m) => Reply(404, ErrorResponse(m, 404, None))
    case Forbidden(m) => Reply(403, ErrorResponse(m, 403, None))
    case Conflict(m) => Reply(409, ErrorResponse(m, 409, None))
    case UnprocessableEntity(m) => Reply(422, ErrorResponse(m, 422, None))
    case ValidationFailed(fields) => Reply(400, ErrorResponse("Validation failed", 400, Some(fields)))
    case IllegalArgument(m) => Reply(400, ErrorResponse(m, 400, None))
    case Internal(_) => Reply(500, ErrorResponse(GenericMessage, 500, None))
  }

  /**
   * Read backwards: every status the handler produces names one kind of
   * exception, except 400, which a rejected body and an IllegalArgumentException share.
   */
  lemma StatusIdentifiesKind(f: Failure)
    ensures Handle(f).status == 404 <==> f.ResourceNotFound?
    ensures Handle(f).status == 403 <==> f.Forbidden?
    ensures Handle(f).status == 409 <==> f.Conflict?
    ensures Handle(f).status == 422 <==> f.UnprocessableEntity?
    ensures Handle(f).status == 400 <==> f.ValidationFailed? || f.IllegalArgument?
    ensures Handle(f).status == 500 <==> f.Internal?
    ensures 400 <= Handle(f).status < 500 <==> !f.Internal?
  {
  }
}
