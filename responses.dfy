/** The JSON envelopes of app/utils: `success_response`, `error_response`
    and `construct_error_msg`, and what a handler can get back from parsing
    the request and calling its service. */
module Responses {
  import opened Results
  import opened Errors
  import opened SchemaBase

  /** The data handed to `success_response`: nothing, one record (a non-empty
      dict, so always truthy) or a list of records. */
  datatype Data<T> = NoData | Record(item: T) | Records(items: seq<T>)

  /** Python truthiness of the data. */
  predicate Truthy<T>(d: Data<T>)
  {
    match d
    case NoData => false
    case Record(_) => true
    case Records(items) => |items| > 0
  }

  /** The body: `{"ok": true[, "result": ...]}` or
      `{"ok": false, "error": {"code": ..., "message": ...}}`. */
  datatype Envelope<T> = Served(result: Option<Data<T>>) | Refused(code: string, message: string)

  datatype Response<T> = Response(status: int, envelope: Envelope<T>)
  {
    predicate Ok() { envelope.Served? }
  }

  /** `success_response(data, status_code)`. */
  function SuccessResponse<T>(data: Data<T>, status: int): (r: Response<T>)
    ensures r.Ok() && r.status == status
    ensures r.envelope.result.Some? <==> Truthy(data)
    ensures r.envelope.result.Some? ==> r.envelope.result.value == data
  {
    Response(status, Served(if Truthy(data) then Some(data) else None))
  }

  /** `error_response(message, code, status_code)`. */
  function ErrorResponse<T>(message: string, code: string, status: int): (r: Response<T>)
    ensures !r.Ok() && r.status == status
    ensures r.envelope.code == code && r.envelope.message == message
  {
    Response(status, Refused(code, message))
  }

  /** An empty list gives a body with no result at all, the same as no data. */
  lemma EmptyListOmitted<T>(status: int)
    ensures SuccessResponse(Records([]), status) == SuccessResponse<T>(NoData, status)
  {
  }

  /** `construct_error_msg`: "<loc>: <msg>" of the first error. */
  function ConstructErrorMsg(e: FieldError): (m: string)
    ensures |m| == |e.loc| + 2 + |e.msg|
    ensures m[..|e.loc|] == e.loc && m[|e.loc| + 2..] == e.msg
    ensures m[|e.loc|..|e.loc| + 2] == ": "
  {
    e.loc + ": " + e.msg
  }

  /** What a handler's `try` block ends with: the request failed schema
      validation, the service raised, or the service returned. */
  datatype Attempt<T> = Invalid(fieldError: FieldError) | Raised(error: Error) | Returned(value: T)
}
