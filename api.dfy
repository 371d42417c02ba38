/**
 * HTTP responses and the error-response helpers (src/helpers/api.rs).
 *
 * A response is its status code and its body; an error body is the JSON
 * object `{"error": <code>}`, kept here as the code it carries.
 */
module Api {

  const StatusOk: nat := 200
  const StatusBadRequest: nat := 400
  const StatusUnauthorized: nat := 401
  const StatusInternalServerError: nat := 500

  /** The code an error body carries when the caller gives none. */
  const DefaultErrorCode: string := "AU0000"

  datatype Body =
    | Empty                      // `finish()`: no body at all
    | Text(text: string)         // `body(...)`: a plain body
    | ErrorJson(error: string)   // `json(ErrorResBody { error })`

  datatype Response = Response(status: nat, body: Body)

  /** The `if error.len() == 0 { error = "AU0000" }` step shared by the 400 and 401 helpers. */
  function ErrorCode(error: string): (code: string)
    ensures |code| > 0
    ensures error != [] ==> code == error
    ensures error == [] ==> code == DefaultErrorCode
  {
    if |error| == 0 then DefaultErrorCode else error
  }

  /** 400 Bad Request with the given error code, or the default one when it is empty. */
  function BadRequest(error: string): (r: Response)
    ensures r.status == StatusBadRequest && r.body.ErrorJson?
    ensures |r.body.error| > 0
    ensures error != [] ==> r.body.error == error
    ensures error == [] ==> r.body.error == DefaultErrorCode
  {
    Response(StatusBadRequest, ErrorJson(ErrorCode(error)))
  }

  /** 401 Unauthorized with the given error code, or the default one when it is empty. */
  function Unauthorized(error: string): (r: Response)
    ensures r.status == StatusUnauthorized && r.body.ErrorJson?
    ensures |r.body.error| > 0
    ensures error != [] ==> r.body.error == error
    ensures error == [] ==> r.body.error == DefaultErrorCode
  {
    Response(StatusUnauthorized, ErrorJson(ErrorCode(error)))
  }

  /** 500 Internal Server Error, with no body. */
  function InternalServerError(): (r: Response)
    ensures r.status == StatusInternalServerError && r.body == Empty
  {
    Response(StatusInternalServerError, Empty)
  }

  /** Applying the fallback to its own output changes nothing. */
  lemma ErrorCodeIdempotent(error: string)
    ensures ErrorCode(ErrorCode(error)) == ErrorCode(error)
  {
  }

  /** The 400 and 401 helpers carry the same code and differ only in their status. */
  lemma HelpersAgreeOnCode(error: string)
    ensures BadRequest(error).body == Unauthorized(error).body
    ensures BadRequest(error).status != Unauthorized(error).status
  {
  }
}
