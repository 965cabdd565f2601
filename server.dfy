/**
 * The response envelope of the HTTP API (`ServerResponse<T>` in src/server.rs):
 * a message, a payload and a status code that travels beside the serialised
 * body rather than inside it.
 */
module Server {

  /** An HTTP status code, as `http::StatusCode` holds one: three decimal digits. */
  type StatusCode = c: int | 100 <= c <= 999 witness 200

  const OK: StatusCode := 200
  const CREATED: StatusCode := 201
  const INTERNAL_SERVER_ERROR: StatusCode := 500

  /** The message every successful envelope carries. */
  const SuccessMessage: string := "success"

  datatype ServerResponse<T> = ServerResponse(message: string, data: T, statusCode: StatusCode)

  /** axum's `Json` wrapper, marking a value to be answered as JSON. */
  datatype Json<T> = Json(value: T)

  /** What serialisation of an envelope writes: `status_code` is skipped. */
  datatype Body<T> = Body(message: string, data: T)

  /** An HTTP response: a status line and a body. */
  datatype HttpResponse<B> = HttpResponse(status: StatusCode, body: B)

  /** The serialised form of an envelope: its message and data, nothing else. */
  function Serialized<T>(r: ServerResponse<T>): (b: Body<T>)
    ensures b.message == r.message && b.data == r.data
  {
    Body(r.message, r.data)
  }

  /** Two envelopes that differ only in their status serialise alike. */
  lemma StatusNotSerialized<T>(r: ServerResponse<T>, s: StatusCode)
    ensures Serialized(r.(statusCode := s)) == Serialized(r)
  {
  }

  /** `ServerResponse::into_response`: the envelope's status becomes the response status. */
  function IntoResponse<T>(r: ServerResponse<T>): (resp: HttpResponse<Body<T>>)
    ensures resp.status == r.statusCode
    ensures resp.body.message == r.message && resp.body.data == r.data
  {
    HttpResponse(r.statusCode, Serialized(r))
  }

  /** `ServerResponse::success_code`: a successful envelope with the given status. */
  function SuccessCode<T>(data: T, statusCode: StatusCode): (r: ServerResponse<T>)
    ensures IntoResponse(r) == HttpResponse(statusCode, Body(SuccessMessage, data))
  {
    ServerResponse(SuccessMessage, data, statusCode)
  }

  /** `ServerResponse::success`: `success_code` with status 200. */
  function Success<T>(data: T): (r: ServerResponse<T>)
    ensures r == SuccessCode(data, OK)
    ensures IntoResponse(r) == HttpResponse(OK, Body(SuccessMessage, data))
  {
    ServerResponse(SuccessMessage, data, OK)
  }

  /** `ServerResponse::error`: the message becomes the envelope's text, status 500, no payload. */
  function Error(message: string): (r: ServerResponse<()>)
    ensures IntoResponse(r) == HttpResponse(INTERNAL_SERVER_ERROR, Body(message, ()))
  {
    ServerResponse(message, (), INTERNAL_SERVER_ERROR)
  }

  /** `ServerResponse::json`: wraps the envelope without altering it. */
  function ToJson<T>(r: ServerResponse<T>): (j: Json<ServerResponse<T>>)
    ensures j.value == r
  {
    Json(r)
  }

  /**
   * axum's responder for `Json<T>`, which every handler's success goes
   * through: it answers 200 with the serialised value and never consults
   * the envelope's own status.
   */
  function JsonIntoResponse<T>(j: Json<ServerResponse<T>>): (resp: HttpResponse<Body<T>>)
    ensures resp.status == OK
    ensures resp.body == IntoResponse(j.value).body
  {
    HttpResponse(OK, Serialized(j.value))
  }

  /**
   * As written, an envelope built with `success_code(d, CREATED)` and
   * answered through `.json()` reaches the client with status 200, while
   * the envelope's own responder would send 201.
   */
  lemma {:induction false} CreatedLostThroughJson<T>(d: T)
    ensures JsonIntoResponse(ToJson(SuccessCode(d, CREATED))).status == OK
    ensures IntoResponse(SuccessCode(d, CREATED)).status == CREATED
    ensures JsonIntoResponse(ToJson(SuccessCode(d, CREATED))) != IntoResponse(SuccessCode(d, CREATED))
  {
    var r := SuccessCode(d, CREATED);
    assert IntoResponse(r).status == CREATED;
    assert JsonIntoResponse(ToJson(r)).status == OK;
  }
}
