/**
 * How the app-engine answers a failed provisioning or run request
 * (ProvisionTaskApiExceptionHandler): the HTTP status is chosen from the error's
 * public code string alone, compared case-insensitively.
 */
module ProvisionErrors {
  import opened Wrappers
  import Text
  import Json
  import opened ErrorCodes

  /** The error object carried by a provisioning exception. */
  datatype AppEngineError = AppEngineError(errorCode: string, message: string)

  /** The response body: the error object itself, or a JSON text. */
  datatype Body = ErrorBody(error: AppEngineError) | TextBody(text: string)

  datatype Response = Response(status: int, body: Body)

  /** The exceptions the handler is registered for. */
  datatype HandledException =
    | RunTaskServiceException
    | ProvisioningException(error: AppEngineError)
    | HttpMessageNotReadable

  const RUN_NOT_FOUND_CODE := "APPE-internal-run-not-found-error"
  const PARAMETER_NOT_FOUND_CODE := "APPE-internal-parameter-not-found"
  const PROVISIONS_NOT_FOUND_CODE := "APPE-internal-task-run-provisions-not-found"
  const INVALID_RUN_STATE_CODE := "APPE-internal-task-run-state-error"

  /**
   * The error built for a code, carrying the table's code string and message
   * (the builder itself is not part of this model); an unregistered code throws.
   */
  function Build(c: ErrorCode): (r: Result<AppEngineError, UndefinedCode>)
    ensures r.Success? <==> FromCode(c).Success?
    ensures r.Success? ==> r.value.errorCode == FromCode(c).value.code
  {
    match FromCode(c)
    case Success(m) => Success(AppEngineError(m.code, m.message))
    case Failure(u) => Failure(u)
  }

  /** The 403 body: a JSON object holding only errorCode and message. */
  function ForbiddenBody(e: AppEngineError): (r: Json.Json)
    ensures Json.Get(r, "errorCode") == Some(Json.JStr(e.errorCode))
    ensures Json.Get(r, "message") == Some(Json.JStr(e.message))
    ensures r.JObj? && |r.fields| == 2
  {
    var fields := [("errorCode", Json.JStr(e.errorCode)), ("message", Json.JStr(e.message))];
    assert fields[0].0 != "message" by { assert fields[0].0[0] != "message"[0]; }
    assert Json.Lookup(fields[1..], "message") == Some(Json.JStr(e.message));
    Json.JObj(fields)
  }

  /** The status class of a provisioning error, from its code string. */
  function ProvisioningStatus(code: string): (s: int)
    ensures s in {400, 403, 404}
    ensures s == 404 <==> Text.EqualsIgnoreCase(code, RUN_NOT_FOUND_CODE) || Text.EqualsIgnoreCase(code, PARAMETER_NOT_FOUND_CODE)
    ensures s == 403 <==> !(Text.EqualsIgnoreCase(code, RUN_NOT_FOUND_CODE) || Text.EqualsIgnoreCase(code, PARAMETER_NOT_FOUND_CODE))
                          && (Text.EqualsIgnoreCase(code, PROVISIONS_NOT_FOUND_CODE) || Text.EqualsIgnoreCase(code, INVALID_RUN_STATE_CODE))
  {
    if Text.EqualsIgnoreCase(code, RUN_NOT_FOUND_CODE) || Text.EqualsIgnoreCase(code, PARAMETER_NOT_FOUND_CODE) then 404
    else if Text.EqualsIgnoreCase(code, PROVISIONS_NOT_FOUND_CODE) || Text.EqualsIgnoreCase(code, INVALID_RUN_STATE_CODE) then 403
    else 400
  }

  /** The table's entries for the codes the handler answers with itself. */
  const TASK_NOT_FOUND_ERROR := AppEngineError("APPE-internal-task-not-found", "Task not found.")
  const UNKNOWN_STATE_ERROR := AppEngineError(INVALID_RUN_STATE_CODE, "unknown state in transition request")

  lemma TaskNotFoundEntry()
    ensures Build(INTERNAL_TASK_NOT_FOUND) == Success(TASK_NOT_FOUND_ERROR)
  {
  }

  lemma UnknownStateEntry()
    ensures Build(UNKNOWN_STATE) == Success(UNKNOWN_STATE_ERROR)
  {
  }

  lemma InvalidRunStateEntry()
    ensures Build(INTERNAL_INVALID_TASK_RUN_STATE) == Success(AppEngineError(INVALID_RUN_STATE_CODE, "run is in invalid state"))
  {
  }

  lemma JsonProcessingEntry()
    ensures Build(INTERNAL_JSON_PROCESSING_ERROR) == Success(AppEngineError(INVALID_RUN_STATE_CODE, "unable to process json"))
  {
  }

  lemma NotProvisionedEntry()
    ensures Build(INTERNAL_NOT_PROVISIONED) == Success(AppEngineError(PROVISIONS_NOT_FOUND_CODE, "not provisioned"))
  {
  }

  lemma ProvisionsNotFoundEntry()
    ensures Build(INTERNAL_PROVISIONS_NOT_FOUND) == Success(AppEngineError(PROVISIONS_NOT_FOUND_CODE, "provisions not found"))
  {
  }

  lemma RunNotFoundEntry()
    ensures Build(RUN_NOT_FOUND) == Success(AppEngineError(RUN_NOT_FOUND_CODE, "Run not found."))
  {
  }

  lemma ParameterNotFoundEntry()
    ensures Build(INTERNAL_PARAMETER_DOES_NOT_EXIST) == Success(AppEngineError(PARAMETER_NOT_FOUND_CODE, "parameter not found"))
  {
  }

  /**
   * The handler. A missing task becomes 404 with the TASK_NOT_FOUND error; an
   * unreadable body becomes 400 with UNKNOWN_STATE; a provisioning error is
   * answered by `ProvisioningStatus`, the 403 case with a reduced JSON body.
   */
  function Handle(e: HandledException): (r: Response)
    ensures e.RunTaskServiceException? ==>
      r == Response(404, ErrorBody(TASK_NOT_FOUND_ERROR))
    ensures e.HttpMessageNotReadable? ==>
      r == Response(400, ErrorBody(UNKNOWN_STATE_ERROR))
    ensures e.ProvisioningException? ==> r.status == ProvisioningStatus(e.error.errorCode)
    ensures e.ProvisioningException? && r.status != 403 ==> r.body == ErrorBody(e.error)
    ensures e.ProvisioningException? && r.status == 403 ==> r.body == TextBody(Json.Serialize(ForbiddenBody(e.error)))
  {
    match e
    case RunTaskServiceException =>
      TaskNotFoundEntry();
      Response(404, ErrorBody(Build(INTERNAL_TASK_NOT_FOUND).value))
    case HttpMessageNotReadable =>
      UnknownStateEntry();
      Response(400, ErrorBody(Build(UNKNOWN_STATE).value))
    case ProvisioningException(err) =>
      var s := ProvisioningStatus(err.errorCode);
      if s == 403 then Response(403, TextBody(Json.Serialize(ForbiddenBody(err))))
      else Response(s, ErrorBody(err))
  }

  /** The three codes sharing the run-state code string. */
  lemma StateErrorsShareCode()
    ensures FromCode(INTERNAL_INVALID_TASK_RUN_STATE).value.code == INVALID_RUN_STATE_CODE
    ensures FromCode(INTERNAL_JSON_PROCESSING_ERROR).value.code == INVALID_RUN_STATE_CODE
    ensures FromCode(UNKNOWN_STATE).value.code == INVALID_RUN_STATE_CODE
  {
    InvalidRunStateEntry();
    JsonProcessingEntry();
    UnknownStateEntry();
  }

  /** NOT_PROVISIONED and PROVISIONS_NOT_FOUND share one code string. */
  lemma ProvisionErrorsShareCode()
    ensures FromCode(INTERNAL_NOT_PROVISIONED).value.code == PROVISIONS_NOT_FOUND_CODE
    ensures FromCode(INTERNAL_PROVISIONS_NOT_FOUND).value.code == PROVISIONS_NOT_FOUND_CODE
  {
    NotProvisionedEntry();
    ProvisionsNotFoundEntry();
  }

  /** The not-found code strings. */
  lemma NotFoundCodes()
    ensures FromCode(RUN_NOT_FOUND).value.code == RUN_NOT_FOUND_CODE
    ensures FromCode(INTERNAL_PARAMETER_DOES_NOT_EXIST).value.code == PARAMETER_NOT_FOUND_CODE
  {
    RunNotFoundEntry();
    ParameterNotFoundEntry();
  }

  /** Because the status follows the code string, a JSON-processing error is answered 403. */
  lemma JsonProcessingErrorIsForbidden()
    ensures Build(INTERNAL_JSON_PROCESSING_ERROR).Success?
    ensures Handle(ProvisioningException(Build(INTERNAL_JSON_PROCESSING_ERROR).value)).status == 403
  {
    JsonProcessingEntry();
    Text.EqualsIgnoreCaseSameLength(INVALID_RUN_STATE_CODE, RUN_NOT_FOUND_CODE);
    Text.EqualsIgnoreCaseSameLength(INVALID_RUN_STATE_CODE, PARAMETER_NOT_FOUND_CODE);
    Text.EqualsIgnoreCaseSameLength(INVALID_RUN_STATE_CODE, INVALID_RUN_STATE_CODE);
  }

  /** A missing run is answered 404. */
  lemma RunNotFoundIsNotFound()
    ensures Build(RUN_NOT_FOUND).Success?
    ensures Handle(ProvisioningException(Build(RUN_NOT_FOUND).value)).status == 404
  {
    RunNotFoundEntry();
    Text.EqualsIgnoreCaseSameLength(RUN_NOT_FOUND_CODE, RUN_NOT_FOUND_CODE);
  }

  /** A missing parameter is answered 404. */
  lemma ParameterNotFoundIsNotFound()
    ensures Build(INTERNAL_PARAMETER_DOES_NOT_EXIST).Success?
    ensures Handle(ProvisioningException(Build(INTERNAL_PARAMETER_DOES_NOT_EXIST).value)).status == 404
  {
    ParameterNotFoundEntry();
    Text.EqualsIgnoreCaseSameLength(PARAMETER_NOT_FOUND_CODE, PARAMETER_NOT_FOUND_CODE);
  }

  /** A run that is not provisioned is answered 403. */
  lemma NotProvisionedIsForbidden()
    ensures Build(INTERNAL_NOT_PROVISIONED).Success?
    ensures Handle(ProvisioningException(Build(INTERNAL_NOT_PROVISIONED).value)).status == 403
  {
    NotProvisionedEntry();
    Text.EqualsIgnoreCaseSameLength(PROVISIONS_NOT_FOUND_CODE, RUN_NOT_FOUND_CODE);
    Text.EqualsIgnoreCaseSameLength(PROVISIONS_NOT_FOUND_CODE, PARAMETER_NOT_FOUND_CODE);
    Text.EqualsIgnoreCaseSameLength(PROVISIONS_NOT_FOUND_CODE, PROVISIONS_NOT_FOUND_CODE);
  }
}
