/**
 * What a handler hands back to the web framework: either a value, or the
 * `HTTPException` it raises (status code, detail text and extra headers).
 */
module Http {

  datatype HttpException = HttpException(statusCode: int, detail: string, headers: map<string, string>)

  /** A handler's outcome: it returns a value or raises an HTTP error. */
  datatype Result<+T> = Ok(value: T) | Err(error: HttpException)

  /** The response model `Token` of both token endpoints. */
  datatype TokenResponse = TokenResponse(accessToken: string, tokenType: string)

  /** The `WWW-Authenticate: Bearer` hint that 401 answers for bearer schemes carry. */
  const BEARER_CHALLENGE: map<string, string> := map["WWW-Authenticate" := "Bearer"]

  /**
   * What the framework answers when a handler raises something other than
   * `HTTPException` (an uncaught Python exception).
   */
  const INTERNAL_SERVER_ERROR := HttpException(500, "Internal Server Error", map[])
}
