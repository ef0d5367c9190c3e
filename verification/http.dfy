/** The reply side of a route handler: what Express would send back. */
module Http {
  import opened Base

  const StatusBadRequest: nat := 400
  const StatusUnauthorized: nat := 401
  const StatusNotFound: nat := 404
  const StatusServerError: nat := 500

  /** One entry of an `{errors: [...]}` body. Validator entries name the
      offending parameter; hand-written ones carry only a message. */
  datatype ErrorItem = ErrorItem(param: Option<string>, msg: string)

  /** The body of a failed reply: `{errors: [...]}`, `{msg}` or a plain text body. */
  datatype ErrorBody = Errors(items: seq<ErrorItem>) | Msg(msg: string) | Text(text: string)

  datatype Failure = Failure(status: nat, body: ErrorBody)

  /** A handler's reply: the JSON value sent with status 200, or a failure. */
  datatype Result<+T> = Ok(value: T) | Err(failure: Failure)

  /** The stores after a handler has run, together with its reply. */
  datatype Step<+S, +T> = Step(store: S, reply: Result<T>)

  /** `res.status(500).send('Server error')`, sent from every catch block. */
  const ServerError: Failure := Failure(StatusServerError, Text("Server error"))

  /** `res.status(status).json({ msg })`. */
  function MsgFailure(status: nat, msg: string): Failure {
    Failure(status, Msg(msg))
  }

  /** `res.status(400).json({ errors: [{ msg }] })`. */
  function SingleError(msg: string): Failure {
    Failure(StatusBadRequest, Errors([ErrorItem(None, msg)]))
  }
}
