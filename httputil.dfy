/** The error responses of the HTTP layer (internal/httputil/error.go). */
module HttpUtil {
  import opened Wrappers

  const StatusOK: int := 200
  const StatusCreated: int := 201
  const StatusBadRequest: int := 400
  const StatusForbidden: int := 403
  const StatusNotFound: int := 404
  const StatusConflict: int := 409
  const StatusInternalServerError: int := 500

  /** The JSON bodies: `HTTPError` and `ValidationError`. */
  datatype Body =
    | HttpError(code: int, message: string)
    | ValidationError(code: int, fields: map<string, string>)

  datatype Response = Response(status: int, body: Body)

  /**
   * What a handler does with a request: the status it answers with and the argument
   * it handed to its final store call (`None` when that call was never made).
   */
  datatype Handled<+W> = Handled(status: int, write: Option<W>)

  /**
   * `NewError`: the status and the error's text, except that an internal server
   * error shows a fixed message instead of the error.
   */
  function NewError(status: int, errText: string): (r: Response)
    ensures r.status == status && r.body.HttpError? && r.body.code == status
    ensures status == StatusInternalServerError ==> r.body.message == "Something went wrong"
    ensures status != StatusInternalServerError ==> r.body.message == errText
  {
    var er := HttpError(status, errText);
    if status == StatusInternalServerError then Response(status, er.(message := "Something went wrong")) else Response(status, er)
  }

  /** `NewValidationError`: always 400, with the field messages as given. */
  function NewValidationError(fields: map<string, string>): (r: Response)
    ensures r.status == StatusBadRequest && r.body == ValidationError(StatusBadRequest, fields)
  {
    Response(StatusBadRequest, ValidationError(StatusBadRequest, fields))
  }

  /** An internal error's text never reaches the client: two such responses cannot be told apart. */
  lemma InternalErrorsMasked(text1: string, text2: string)
    ensures NewError(StatusInternalServerError, text1) == NewError(StatusInternalServerError, text2)
  {
  }

  /** For every other status the error text is recoverable from the response. */
  lemma OtherErrorsShown(status: int, text1: string, text2: string)
    requires status != StatusInternalServerError && text1 != text2
    ensures NewError(status, text1) != NewError(status, text2)
  {
  }
}
