/** HTTP status codes the route handlers return, and the truthiness test the
    handlers apply to JSON request fields. */
module Http {
  import opened Wrappers

  datatype Status =
    | Ok                   // 200
    | Created              // 201
    | BadRequest           // 400
    | Unauthorized         // 401
    | Forbidden            // 403
    | NotFound             // 404
    | Conflict             // 409
    | InternalServerError  // 500: an exception the handler does not catch

  /** `data.get(key)` is truthy: the field is present and not the empty string. */
  function Given(field: Option<string>): (truthy: bool)
    ensures !truthy <==> field == None || field == Some("")
  {
    field.Some? && field.value != ""
  }
}
