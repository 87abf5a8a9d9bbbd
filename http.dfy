/** The shape of every reply a handler or middleware sends. */
module Http {

  /** One entry of express-validator's `errors.array()`: the field and the message. */
  datatype FieldError = FieldError(path: string, msg: string)

  /** express-validator's message when a rule has no `withMessage`. */
  const InvalidValue := "Invalid value"

  datatype Response<+T> =
    | Error(status: int, message: string)   // res.status(status).json({ message })
    | Invalid(errors: seq<FieldError>)      // res.status(400).json({ errors })
    | Ok(status: int, payload: T)           // res.status(status).json(payload)
  {
    function Status(): int {
      match this
      case Error(s, _) => s
      case Invalid(_) => 400
      case Ok(s, _) => s
    }
  }
}
