/**
 * The single failure path of the API (src/app_error.rs): every error a
 * handler meets is wrapped as an `InternalServerError` and answered with the
 * 500 envelope carrying the error's text.
 */
module AppError {
  import opened Wrappers
  import opened Server
  import opened Store

  /** `InternalServerError(anyhow::Error)`; every error here is a database error. */
  datatype InternalServerError = InternalServerError(error: DbError)

  /** What every handler returns: a JSON envelope, or the wrapped failure (src/server.rs:72). */
  type ServerResponseResult<T> = Result<Json<ServerResponse<T>>, InternalServerError>

  /** The `From` conversion used by `?`: the error is kept unchanged. */
  function From(e: DbError): (w: InternalServerError)
    ensures w.error == e
    ensures Display(w.error) == Display(e)
  {
    InternalServerError(e)
  }

  /** `InternalServerError::into_response`: the error envelope of the wrapped error. */
  function ErrorIntoResponse(w: InternalServerError): (resp: HttpResponse<Body<()>>)
    ensures resp.status == INTERNAL_SERVER_ERROR
    ensures resp.body == Body(Display(w.error), ())
  {
    IntoResponse(Error(Display(w.error)))
  }

  /** A row that was not found is answered like any other failure: 500, never 404. */
  lemma NotFoundIsInternal()
    ensures ErrorIntoResponse(From(RowNotFound)) == HttpResponse(INTERNAL_SERVER_ERROR, Body(RowNotFoundMessage, ()))
  {
  }

  /** No failure of any handler is answered with a status other than 500. */
  lemma FailuresAreInternal<T>(r: ServerResponseResult<T>)
    requires r.Err?
    ensures ErrorIntoResponse(r.error).status == INTERNAL_SERVER_ERROR
    ensures ErrorIntoResponse(r.error).body.message == Display(r.error.error)
  {
  }
}
