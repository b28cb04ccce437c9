/** The error responses the controllers send: `res.status(code).json({ success: false, message })`. */
module Http {

  /** A non-2xx response body: its status code and message (the `success` flag is always false). */
  datatype Failure = Failure(status: int, message: string)

  const BadRequest: int := 400
  const Unauthorized: int := 401
  const Forbidden: int := 403
  const NotFound: int := 404
  const ServerError: int := 500

  /** The catch-all body every controller sends from its `catch` block. */
  const ServerErrorFailure: Failure := Failure(ServerError, "Server error")
}
