/**
 The JSON envelope every endpoint answers with. Each Response call ends the
 request, so a controller's result is a single `Outcome`; the `Step` type
 lets a controller stop at the first response a check produces, exactly as
 the PHP code stops at the first Response call.
 */
module Http {
  import opened Php
  import opened Wrappers

  /** The two envelope shapes: `{status: error, error}` and `{status: success, data}`. */
  datatype Envelope = ErrorEnvelope(error: Val) | SuccessEnvelope(data: Val)

  /** What a request ends with: a JSON envelope, or a report file download. */
  datatype Outcome =
    | Json(status: int, envelope: Envelope)
    | CsvFile(reportType: string, lines: seq<seq<Val>>)
    | JsonFile(reportType: string, data: seq<Row>)

  /** A computation that either goes on with a value or has already answered the request. */
  datatype Step<T> = Next(value: T) | Halt(out: Outcome) {
    predicate IsFailure() { Halt? }
    function PropagateFailure<U>(): Step<U> requires Halt? { Halt(out) }
    function Extract(): T requires Next? { value }
  }

  /** Whether `data` is an array whose `status` entry is the string "error". */
  predicate IsErrorPayload(data: Val) {
    data.Arr? && "status" in data.fields && data.fields["status"] == Str("error")
  }

  /**
   Response::json: an array payload whose status is "error" is sent as an
   error envelope carrying its `error` entry; everything else is wrapped as data.
   */
  function Json(data: Val, status: int := 200): (o: Outcome)
    ensures o.Json? && o.status == status
    ensures o.envelope.ErrorEnvelope? <==> IsErrorPayload(data)
    ensures IsErrorPayload(data) ==> o.envelope.error == Get(data.fields, "error")
    ensures !IsErrorPayload(data) ==> o.envelope.data == data
  {
    if IsErrorPayload(data) then Outcome.Json(status, ErrorEnvelope(Get(data.fields, "error")))
    else Outcome.Json(status, SuccessEnvelope(data))
  }

  /** The error object Response::error puts in the envelope. */
  function ErrorBody(message: string, code: string, details: Val): Val {
    Arr(map["code" := Str(code), "message" := Str(message), "details" := details])
  }

  /** Response::error, with the PHP defaults for code, details and status. */
  function Error(message: string, code: string := "VALIDATION_ERROR", details: Val := Arr(map[]), status: int := 400): (o: Outcome)
    ensures o == Outcome.Json(status, ErrorEnvelope(ErrorBody(message, code, details)))
    ensures IsError(o, code, status)
  {
    var payload := Arr(map["status" := Str("error"), "error" := ErrorBody(message, code, details)]);
    assert "status" in payload.fields;
    Json(payload, status)
  }

  /**
   Response::success: a null payload becomes an empty array, a message is
   added under `message`, and the status is always 200.
   */
  function Success(data: Option<Row> := None, message: Option<string> := None): (o: Outcome)
    ensures o.Json? && o.status == 200
    ensures o.envelope.SuccessEnvelope? ==>
      o.envelope.data == Arr(SuccessPayload(data, message))
  {
    Json(Arr(SuccessPayload(data, message)), 200)
  }

  /**
   Response::success with a payload that is not itself an error array: the
   answer is a success envelope holding the payload (and the message).
   */
  function Ok(data: Row, message: Option<string> := None): (o: Outcome)
    requires !("status" in data && data["status"] == Str("error"))
    ensures o == Success(Some(data), message)
    ensures IsSuccess(o) && DataOf(o) == SuccessPayload(Some(data), message)
    ensures forall k :: k in data && k != "message" ==> k in DataOf(o) && DataOf(o)[k] == data[k]
    ensures message.Some? ==> "message" in DataOf(o) && DataOf(o)["message"] == Str(message.value)
  {
    Success(Some(data), message)
  }

  /** The array Response::success hands to Response::json. */
  function SuccessPayload(data: Option<Row>, message: Option<string>): (p: Row)
    ensures message.Some? ==> "message" in p && p["message"] == Str(message.value)
    ensures data.Some? ==> forall k :: k in data.value && k != "message" ==> k in p && p[k] == data.value[k]
    ensures message.None? ==> p == (if data.Some? then data.value else map[])
  {
    var base := if data.Some? then data.value else map[];
    if message.Some? then base["message" := Str(message.value)] else base
  }

  /** The HTTP status of an outcome (file downloads are sent with 200). */
  function StatusOf(o: Outcome): int {
    if o.Json? then o.status else 200
  }

  /** The error code an outcome carries, or "" for a success. */
  function CodeOf(o: Outcome): string {
    if o.Json? && o.envelope.ErrorEnvelope? && o.envelope.error.Arr?
       && "code" in o.envelope.error.fields && o.envelope.error.fields["code"].Str?
    then o.envelope.error.fields["code"].s
    else ""
  }

  /** Whether `o` is the error envelope with this code and HTTP status. */
  predicate IsError(o: Outcome, code: string, status: int) {
    o.Json? && o.status == status && o.envelope.ErrorEnvelope? && CodeOf(o) == code
  }

  /** Whether `o` is a success envelope. */
  predicate IsSuccess(o: Outcome) {
    o.Json? && o.status == 200 && o.envelope.SuccessEnvelope?
  }

  /** The `data` array of a success envelope. */
  function DataOf(o: Outcome): Row {
    if o.Json? && o.envelope.SuccessEnvelope? && o.envelope.data.Arr? then o.envelope.data.fields else map[]
  }

  /** Whether the `data` array of `o` holds `v` under `key`. */
  predicate Carries(o: Outcome, key: string, v: Val) {
    key in DataOf(o) && DataOf(o)[key] == v
  }

  lemma ErrorIsError(message: string, code: string, details: Val, status: int)
    ensures IsError(Error(message, code, details, status), code, status)
  {
  }

  /**
   The envelope kind depends only on whether the payload is an array whose
   status is "error": even Response::success answers with an error envelope
   when the data it is given carries `status => 'error'`.
   */
  lemma SuccessWithErrorStatus(data: Row)
    requires "status" in data && data["status"] == Str("error")
    ensures Success(Some(data), None).envelope.ErrorEnvelope?
  {
  }

  lemma SuccessIsSuccess(data: Option<Row>, message: Option<string>)
    requires data.Some? ==> !("status" in data.value && data.value["status"] == Str("error"))
    ensures IsSuccess(Success(data, message))
    ensures DataOf(Success(data, message)) == SuccessPayload(data, message)
  {
  }
}
