/** Response builders of the presentation layer: each one is a total function
    of its single argument that only assembles a status code and a body. */
module HttpHelpers {

  import opened Errors

  /** What a response carries: an error value, or a data payload (a JSON
      object whose fields are strings). */
  datatype Body =
    | ErrorBody(error: Error)
    | DataBody(data: map<string, string>)

  datatype HttpResponse = HttpResponse(statusCode: int, body: Body)

  /** badRequest(error) */
  function BadRequest(error: Error): HttpResponse
  {
    HttpResponse(400, ErrorBody(error))
  }

  /** successResponse(data), with the status code the source gives it. */
  function SuccessResponse(data: map<string, string>): HttpResponse
  {
    HttpResponse(400, DataBody(data))
  }

  /** serverError(): 500 with a ServerError body. */
  function ServerErrorResponse(): HttpResponse
  {
    HttpResponse(500, ErrorBody(ServerError))
  }

  /** The success builder as evidently intended: a 2xx status. */
  function Ok(data: map<string, string>): HttpResponse
  {
    HttpResponse(200, DataBody(data))
  }

  predicate IsSuccessStatus(code: int)
  {
    200 <= code < 300
  }

  lemma BadRequestStatus(error: Error)
    ensures BadRequest(error).statusCode == 400
  {
  }

  /** The error is carried unchanged, so distinct errors give distinct responses. */
  lemma BadRequestKeepsError(e1: Error, e2: Error)
    ensures BadRequest(e1).body == ErrorBody(e1)
    ensures BadRequest(e1) == BadRequest(e2) <==> e1 == e2
  {
  }

  /** As written, a success response carries 400, the status of a bad request. */
  lemma SuccessResponseStatus(data: map<string, string>, error: Error)
    ensures SuccessResponse(data).statusCode == 400
    ensures SuccessResponse(data).statusCode == BadRequest(error).statusCode
    ensures !IsSuccessStatus(SuccessResponse(data).statusCode)
  {
  }

  /** The data is carried unchanged, so distinct payloads give distinct responses. */
  lemma SuccessResponseKeepsData(d1: map<string, string>, d2: map<string, string>)
    ensures SuccessResponse(d1).body == DataBody(d1)
    ensures SuccessResponse(d1) == SuccessResponse(d2) <==> d1 == d2
  {
  }

  lemma ServerErrorResponseShape()
    ensures ServerErrorResponse().statusCode == 500
    ensures ServerErrorResponse().body == ErrorBody(ServerError)
  {
  }

  /** The corrected builder: a 2xx status, distinct from every error status,
      with the data unchanged. */
  lemma OkIsSuccess(data: map<string, string>, error: Error)
    ensures IsSuccessStatus(Ok(data).statusCode)
    ensures Ok(data).statusCode != BadRequest(error).statusCode
    ensures Ok(data).statusCode != ServerErrorResponse().statusCode
    ensures Ok(data).body == SuccessResponse(data).body
  {
  }

}
