/** The express-validator rules the blog and announcement routes share. A rule
    reads its field through `toString`, so a missing field and null read as "". */
module Validation {
  import opened Js
  import opened Http

  /** `body(key).notEmpty().withMessage(message)` */
  function Required(body: Body, key: string, message: string): (errs: seq<FieldError>)
    ensures errs == [] <==> Truthy(body, key)
    ensures errs != [] ==> errs == [FieldError(key, message)]
  {
    if ToStr(body, key) != "" then [] else [FieldError(key, message)]
  }

  /** `body(key).optional().isString()`: a missing field is skipped; null is not a
      string. */
  function OptionalString(body: Body, key: string): (errs: seq<FieldError>)
    ensures errs == [] <==> key !in body || body[key].Str?
    ensures errs != [] ==> errs == [FieldError(key, InvalidValue)]
  {
    if key in body && body[key].Null? then [FieldError(key, InvalidValue)] else []
  }

  /** `body(key).optional().isISO8601()`: a missing field is skipped; anything
      else must be an ISO 8601 date (null reads as "", which is not one). */
  function OptionalIso8601(body: Body, key: string, isIso8601: string -> bool): (errs: seq<FieldError>)
    ensures errs == [] <==> key !in body || isIso8601(ToStr(body, key))
    ensures errs != [] ==> errs == [FieldError(key, InvalidValue)]
  {
    if key in body && !isIso8601(ToStr(body, key)) then [FieldError(key, InvalidValue)] else []
  }
}
