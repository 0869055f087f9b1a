/** The error middleware: every error a handler throws becomes a status and
    a JSON body, by a fixed precedence: validation, then store codes, then
    an explicit status, then 500. */
module ErrorHandler {
  import opened Common

  /** The JSON bodies the middleware sends, by the branch that sends them. */
  datatype Body =
    | ValidationBody(details: string)
    | DatabaseBody(message: string)
    | StatusBody(message: string)
    | InternalBody(message: string, code: string)

  datatype Response = Response(status: int, body: Body)

  /** The message of the store branch: two MySQL codes get a fixed text,
      any other code keeps the error's own message. */
  function DatabaseMessage(code: string, message: string): (m: string)
    ensures code == "ER_DUP_ENTRY" ==> m == "Duplicate entry"
    ensures code in {"ER_NO_REFERENCED_ROW", "ER_NO_REFERENCED_ROW_2"} ==> m == "Foreign key constraint failed"
    ensures code !in {"ER_DUP_ENTRY", "ER_NO_REFERENCED_ROW", "ER_NO_REFERENCED_ROW_2"} ==> m == message
  {
    if code == "ER_DUP_ENTRY" then "Duplicate entry"
    else if code == "ER_NO_REFERENCED_ROW" || code == "ER_NO_REFERENCED_ROW_2" then "Foreign key constraint failed"
    else message
  }

  /** `errorHandler(err)`. A ZodError's details are its message (the JSON
      it holds is not parsed here). */
  function Handle(err: Thrown): (r: Response)
    ensures r.status == 400 || r.status == err.statusCode || r.status == 500
    ensures r.body.ValidationBody? <==> err.zod
    ensures r.body.InternalBody? ==> r.body.code == "INTERNAL_ERROR"
  {
    if err.zod then Response(400, ValidationBody(err.message))
    else if err.code != "" then Response(400, DatabaseBody(DatabaseMessage(err.code, err.message)))
    else if err.statusCode != 0 then Response(err.statusCode, StatusBody(err.message))
    else Response(500, InternalBody("Internal server error", if err.code != "" then err.code else "INTERNAL_ERROR"))
  }

  /** Every response is 400, the error's own status, or 500; a 500 always
      carries the code "INTERNAL_ERROR", since a coded error never gets
      that far. */
  lemma StatusCases(err: Thrown)
    ensures Handle(err).status in {400, err.statusCode, 500}
    ensures Handle(err).status == 500 && err.statusCode != 500 ==>
              Handle(err).body == InternalBody("Internal server error", "INTERNAL_ERROR")
    ensures Handle(err).body.InternalBody? ==> Handle(err).body.code == "INTERNAL_ERROR" && err.code == "" && err.statusCode == 0
  {
  }

  /** Which branch answers: the first of validation, a truthy code, a
      truthy status, or none of them. */
  lemma Branches(err: Thrown)
    ensures Handle(err).body.ValidationBody? <==> err.zod
    ensures Handle(err).body.DatabaseBody? <==> !err.zod && err.code != ""
    ensures Handle(err).body.StatusBody? <==> !err.zod && err.code == "" && err.statusCode != 0
    ensures Handle(err).body.InternalBody? <==> !err.zod && err.code == "" && err.statusCode == 0
    ensures Handle(err).body.StatusBody? ==> Handle(err) == Response(err.statusCode, StatusBody(err.message))
    ensures Handle(err).body.DatabaseBody? ==> Handle(err) == Response(400, DatabaseBody(DatabaseMessage(err.code, err.message)))
  {
  }

  /** The precedence is total: a validation flag hides a code and a status,
      and a code hides a status. */
  lemma Precedence(message: string, code: string, status: int, kind: Kind)
    requires code != ""
    ensures Handle(Thrown(true, code, status, kind, message)).body.ValidationBody?
    ensures Handle(Thrown(false, code, status, kind, message)) == Response(400, DatabaseBody(DatabaseMessage(code, message)))
  {
  }

  /** How the errors the handlers throw are answered. */
  lemma HandlerErrors(message: string, status: int, kind: Kind, details: string, code: string)
    requires status != 0 && code != ""
    ensures Handle(NotFoundError(message)) == Response(404, StatusBody(message))
    ensures Handle(ForbiddenError()) == Response(403, StatusBody("Forbidden"))
    ensures Handle(AppError(message, status, kind)) == Response(status, StatusBody(message))
    ensures Handle(PlainAppError(message)) == Response(400, StatusBody(message))
    ensures Handle(ZodError(details)) == Response(400, ValidationBody(details))
    ensures Handle(StoreError(code, message)).status == 400 && Handle(StoreError(code, message)).body.DatabaseBody?
    ensures Handle(TypeError(message)) == Response(500, InternalBody("Internal server error", "INTERNAL_ERROR"))
  {
  }

  /** The store reports PostgreSQL codes, which the MySQL cases never
      match: a duplicate public id keeps the store's own message. */
  lemma PostgresCodesKeepMessage(message: string)
    ensures Handle(StoreError("23505", message)) == Response(400, DatabaseBody(message))
    ensures Handle(StoreError("23503", message)) == Response(400, DatabaseBody(message))
  {
  }
}
