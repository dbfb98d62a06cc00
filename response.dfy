/** The JSON envelope every endpoint answers with (`ResponseHelper`):
    each helper returns the HTTP status code and the envelope instead of
    writing them to the Express response. */
module Response {
  import opened Wrappers

  /** `{ data, status, message, isError }`; `data` is `null` when absent. */
  datatype Envelope<T> = Envelope(data: Option<T>, status: string, message: string, isError: bool)

  datatype Reply<T> = Reply(statusCode: int, body: Envelope<T>)

  /** The envelope shape the API promises: the status is one of the two
      words, and `isError` is set exactly when it is "error". */
  predicate WellFormed<T>(e: Envelope<T>) {
    (e.status == "success" || e.status == "error") && (e.isError <==> e.status == "error")
  }

  /** `ResponseHelper.success`. */
  function Success<T>(data: T, message: string := "Success", statusCode: int := 200): (r: Reply<T>)
    ensures WellFormed(r.body) && !r.body.isError
    ensures r.statusCode == statusCode && r.body.message == message && r.body.data == Some(data)
  {
    Reply(statusCode, Envelope(Some(data), "success", message, false))
  }

  /** `ResponseHelper.error`. */
  function Error<T>(message: string := "Internal server error", statusCode: int := 500, data: Option<T> := None): (r: Reply<T>)
    ensures WellFormed(r.body) && r.body.isError
    ensures r.statusCode == statusCode && r.body.message == message && r.body.data == data
  {
    Reply(statusCode, Envelope(data, "error", message, true))
  }

  /** `ResponseHelper.badRequest`: an error with code 400. */
  function BadRequest<T>(message: string := "Bad request", data: Option<T> := None): (r: Reply<T>)
    ensures WellFormed(r.body) && r.body.isError
    ensures r.statusCode == 400 && r.body.message == message && r.body.data == data
  {
    Error(message, 400, data)
  }

  /** `ResponseHelper.notFound`: an error with code 404. */
  function NotFound<T>(message: string := "Resource not found", data: Option<T> := None): (r: Reply<T>)
    ensures WellFormed(r.body) && r.body.isError
    ensures r.statusCode == 404 && r.body.message == message && r.body.data == data
  {
    Error(message, 404, data)
  }

  /** The defaults of the four helpers. */
  lemma Defaults<T>(data: T)
    ensures Success(data) == Reply(200, Envelope(Some(data), "success", "Success", false))
    ensures Error<T>() == Reply(500, Envelope(None, "error", "Internal server error", true))
    ensures BadRequest<T>() == Reply(400, Envelope(None, "error", "Bad request", true))
    ensures NotFound<T>() == Reply(404, Envelope(None, "error", "Resource not found", true))
  {
  }
}
