/** The handlers of app/routes: each turns what its `try` block ended with
    into an HTTP status and an envelope, by the `except` clauses in the order
    they are written. Authentication decorators are not part of this model. */
module Routes {
  import opened Results
  import opened Text
  import opened Errors
  import opened SchemaBase
  import opened People
  import opened AppointmentModel
  import opened Directory
  import opened Auth
  import opened Store
  import opened Responses

  const InternalError := "Internal server error"

  /** `error_response(f"<Entity> with id {id} not found", "<prefix>/not-found", 404)`. */
  function NotFoundResponse<T>(entity: string, prefix: string, id: int): (r: Response<T>)
    ensures !r.Ok() && r.status == 404
    ensures r.envelope == Refused(prefix + "/not-found", NotFoundMsg(entity, id))
  {
    ErrorResponse(NotFoundMsg(entity, id), prefix + "/not-found", 404)
  }

  /** GET `/<id>`: 200 with the record, or 404. */
  function GetResponse<T>(entity: string, prefix: string, id: int, found: Option<T>): (r: Response<T>)
    ensures r.Ok() <==> found.Some?
    ensures found.Some? ==> r == Response(200, Served(Some(Record(found.value))))
    ensures found.None? ==> r == NotFoundResponse(entity, prefix, id)
  {
    if found.Some? then SuccessResponse(Record(found.value), 200) else NotFoundResponse(entity, prefix, id)
  }

  /** GET on the collection: 200, with a result only for a non-empty list. */
  function ListResponse<T>(items: seq<T>): (r: Response<T>)
    ensures r.Ok() && r.status == 200
    ensures r.envelope.result.Some? <==> |items| > 0
    ensures |items| > 0 ==> r == Response(200, Served(Some(Records(items))))
    ensures |items| == 0 ==> r == Response(200, Served(None))
  {
    SuccessResponse(Records(items), 200)
  }

  /** DELETE `/<id>`: 200 with no result when a record was removed, else 404. */
  function DeleteResponse<T>(entity: string, prefix: string, id: int, existed: bool): (r: Response<T>)
    ensures r.Ok() <==> existed
    ensures existed ==> r == Response(200, Served(None))
    ensures !existed ==> r == NotFoundResponse(entity, prefix, id)
  {
    if existed then SuccessResponse(NoData, 200) else NotFoundResponse(entity, prefix, id)
  }

  /* ---------------- appointments ---------------- */

  /** The appointment handlers' `except` chain after the schema clause. */
  function AppointmentRaised<T>(e: Error, failCode: string): (r: Response<T>)
    ensures r.status == 400 <==> e.Validation?
    ensures r.status == 404 <==> e.ResourceNotFound?
    ensures r.status == 500 <==> !e.Validation? && !e.ResourceNotFound?
    ensures e.Validation? ==> r.envelope == Refused("appointment/validation-error", e.message)
    ensures e.ResourceNotFound? ==> r.envelope == Refused(e.errCode, e.message)
    ensures r.status == 500 ==> r.envelope == Refused(failCode, InternalError)
  {
    if e.Validation? then ErrorResponse(Str(e), "appointment/validation-error", 400)
    else if e.ResourceNotFound? then ErrorResponse(Str(e), e.errCode, 404)
    else ErrorResponse(InternalError, failCode, 500)
  }

  /** POST /appointments. */
  function CreateAppointmentResponse(a: Attempt<Appointment>): (r: Response<Appointment>)
    ensures r.Ok() <==> a.Returned?
    ensures a.Returned? ==> r == Response(201, Served(Some(Record(a.value))))
    ensures a.Invalid? ==> r == Response(400, Refused("appointment/validation-error", a.fieldError.msg))
    ensures a.Raised? ==> r == AppointmentRaised(a.error, "appointment/creation-failed")
  {
    match a
    case Invalid(fe) => ErrorResponse(fe.msg, "appointment/validation-error", 400)
    case Raised(e) => AppointmentRaised(e, "appointment/creation-failed")
    case Returned(x) => SuccessResponse(Record(x), 201)
  }

  /** PUT /appointments/<id>. */
  function UpdateAppointmentResponse(id: int, a: Attempt<Option<Appointment>>): (r: Response<Appointment>)
    ensures r.Ok() <==> a.Returned? && a.value.Some?
    ensures a.Returned? && a.value.Some? ==> r == Response(200, Served(Some(Record(a.value.value))))
    ensures a.Returned? && a.value.None? ==> r == NotFoundResponse("Appointment", "appointment", id)
    ensures a.Invalid? ==> r == Response(400, Refused("appointment/validation-error", a.fieldError.msg))
    ensures a.Raised? ==> r == AppointmentRaised(a.error, "appointment/update-failed")
  {
    match a
    case Invalid(fe) => ErrorResponse(fe.msg, "appointment/validation-error", 400)
    case Raised(e) => AppointmentRaised(e, "appointment/update-failed")
    case Returned(found) =>
      if found.Some? then SuccessResponse(Record(found.value), 200)
      else NotFoundResponse("Appointment", "appointment", id)
  }

  /** A missing appointment gives the same 404 whether it was read, updated
      or deleted, and the service's own not-found error on update gives that
      same body too. */
  lemma AppointmentNotFoundUniform(id: int)
    ensures var gone := NotFoundResponse<Appointment>("Appointment", "appointment", id);
            && GetResponse("Appointment", "appointment", id, None) == gone
            && UpdateAppointmentResponse(id, Returned(None)) == gone
            && DeleteResponse("Appointment", "appointment", id, false) == gone
            && UpdateAppointmentResponse(id, Raised(ResourceNotFound(NotFoundMsg("Appointment", id), "appointment/not-found"))) == gone
  {
  }

  /* ---------------- patients ---------------- */

  /** POST /patients: the duplicate clause comes first, and an unknown
      failure shows its text. */
  function CreatePatientResponse(a: Attempt<Patient>): (r: Response<Patient>)
    ensures r.Ok() <==> a.Returned?
    ensures a.Returned? ==> r == Response(201, Served(Some(Record(a.value))))
    ensures a.Invalid? ==> r == Response(400, Refused("patient/validation-error", ConstructErrorMsg(a.fieldError)))
    ensures a.Raised? && a.error.DuplicateResource? ==> r == Response(409, Refused("patient/duplicate", a.error.message))
    ensures a.Raised? && !a.error.DuplicateResource? ==> r == Response(500, Refused("patient/creation-failed", Str(a.error)))
  {
    match a
    case Invalid(fe) => ErrorResponse(ConstructErrorMsg(fe), "patient/validation-error", 400)
    case Raised(e) =>
      if e.DuplicateResource? then ErrorResponse(Str(e), "patient/duplicate", 409)
      else ErrorResponse(Str(e), "patient/creation-failed", 500)
    case Returned(p) => SuccessResponse(Record(p), 201)
  }

  /** PUT /patients/<id>. */
  function UpdatePatientResponse(id: int, a: Attempt<Option<Patient>>): (r: Response<Patient>)
    ensures r.Ok() <==> a.Returned? && a.value.Some?
    ensures a.Returned? && a.value.Some? ==> r == Response(200, Served(Some(Record(a.value.value))))
    ensures a.Returned? && a.value.None? ==> r == NotFoundResponse("Patient", "patient", id)
    ensures a.Invalid? ==> r == Response(400, Refused("patient/validation-error", ConstructErrorMsg(a.fieldError)))
    ensures a.Raised? && a.error.DuplicateResource? ==> r == Response(409, Refused("patient/duplicate-error", a.error.message))
    ensures a.Raised? && !a.error.DuplicateResource? ==> r == Response(500, Refused("patient/update-failed", InternalError))
  {
    match a
    case Invalid(fe) => ErrorResponse(ConstructErrorMsg(fe), "patient/validation-error", 400)
    case Raised(e) =>
      if e.DuplicateResource? then ErrorResponse(Str(e), "patient/duplicate-error", 409)
      else ErrorResponse(InternalError, "patient/update-failed", 500)
    case Returned(found) =>
      if found.Some? then SuccessResponse(Record(found.value), 200)
      else NotFoundResponse("Patient", "patient", id)
  }

  /** A KTP number already stored gives 409 on create, with a message that
      names the number; the same conflict on update is reported under a
      different code. */
  lemma DuplicateKtpResponses(id: int, noKtp: string)
    ensures var e := PatientConflict(Integrity(UniqueFailed("patient", "no_ktp")), noKtp);
            && CreatePatientResponse(Raised(e)) == Response(409, Refused("patient/duplicate", DuplicateKtpMsg(noKtp)))
            && UpdatePatientResponse(id, Raised(e)) == Response(409, Refused("patient/duplicate-error", DuplicateKtpMsg(noKtp)))
  {
    KtpViolationRecognised(noKtp);
  }

  /* ---------------- doctors and employees ---------------- */

  /** POST /doctors and POST /employees: `detailed` says whether an unknown
      failure shows its text (doctors) or a fixed message (employees). */
  function AccountCreateResponse<T>(prefix: string, detailed: bool, a: Attempt<T>): (r: Response<T>)
    ensures r.Ok() <==> a.Returned?
    ensures a.Returned? ==> r == Response(201, Served(Some(Record(a.value))))
    ensures a.Invalid? ==> r == Response(400, Refused(prefix + "/validation-error", a.fieldError.msg))
    ensures a.Raised? && a.error.UsernameAlreadyExists? ==> r == Response(409, Refused(prefix + "/username-exists", a.error.message))
    ensures a.Raised? && !a.error.UsernameAlreadyExists? ==>
      r == Response(500, Refused(prefix + "/creation-failed", if detailed then Str(a.error) else InternalError))
  {
    match a
    case Invalid(fe) => ErrorResponse(fe.msg, prefix + "/validation-error", 400)
    case Raised(e) =>
      if e.UsernameAlreadyExists? then ErrorResponse(Str(e), prefix + "/username-exists", 409)
      else ErrorResponse(if detailed then Str(e) else InternalError, prefix + "/creation-failed", 500)
    case Returned(x) => SuccessResponse(Record(x), 201)
  }

  /** PUT /doctors/<id> and PUT /employees/<id>. */
  function AccountUpdateResponse<T>(entity: string, prefix: string, id: int, a: Attempt<Option<T>>): (r: Response<T>)
    ensures r.Ok() <==> a.Returned? && a.value.Some?
    ensures a.Returned? && a.value.Some? ==> r == Response(200, Served(Some(Record(a.value.value))))
    ensures a.Returned? && a.value.None? ==> r == NotFoundResponse(entity, prefix, id)
    ensures a.Invalid? ==> r == Response(400, Refused(prefix + "/validation-error", a.fieldError.msg))
    ensures a.Raised? && a.error.UsernameAlreadyExists? ==> r == Response(409, Refused(prefix + "/username-exists", a.error.message))
    ensures a.Raised? && !a.error.UsernameAlreadyExists? ==> r == Response(500, Refused(prefix + "/update-failed", InternalError))
  {
    match a
    case Invalid(fe) => ErrorResponse(fe.msg, prefix + "/validation-error", 400)
    case Raised(e) =>
      if e.UsernameAlreadyExists? then ErrorResponse(Str(e), prefix + "/username-exists", 409)
      else ErrorResponse(InternalError, prefix + "/update-failed", 500)
    case Returned(found) =>
      if found.Some? then SuccessResponse(Record(found.value), 200)
      else NotFoundResponse(entity, prefix, id)
  }

  function CreateDoctorResponse(a: Attempt<Doctor>): Response<Doctor> { AccountCreateResponse("doctor", true, a) }
  function CreateEmployeeResponse(a: Attempt<Employee>): Response<Employee> { AccountCreateResponse("employee", false, a) }
  function UpdateDoctorResponse(id: int, a: Attempt<Option<Doctor>>): Response<Doctor> { AccountUpdateResponse("Doctor", "doctor", id, a) }
  function UpdateEmployeeResponse(id: int, a: Attempt<Option<Employee>>): Response<Employee> { AccountUpdateResponse("Employee", "employee", id, a) }

  /** A username the store already holds gives 409 on create, for doctors
      and employees alike, with the message of the username error (which
      quotes the username). */
  lemma TakenUsernameResponse<T>(table: string, username: string)
    requires table == "doctor" || table == "employee"
    ensures AccountCreateResponse<T>(table, table == "doctor",
              Raised(UsernameConflict(Integrity(UniqueFailed(table, "username")), table, username)))
         == Response(409, Refused(table + "/username-exists", UsernameAlreadyExistsError(table, username).message))
  {
    UsernameViolationRecognised(table, table, username);
  }

  /** An unknown failure's text reaches the client only on patient and doctor
      create; every update, and employee create, answer with a fixed text. */
  lemma FailureTextExposure(id: int, text: string)
    ensures CreatePatientResponse(Raised(Unexpected(text))).envelope.message == text
    ensures CreateDoctorResponse(Raised(Unexpected(text))).envelope.message == text
    ensures CreateEmployeeResponse(Raised(Unexpected(text))).envelope.message == InternalError
    ensures UpdatePatientResponse(id, Raised(Unexpected(text))).envelope.message == InternalError
    ensures UpdateDoctorResponse(id, Raised(Unexpected(text))).envelope.message == InternalError
    ensures UpdateEmployeeResponse(id, Raised(Unexpected(text))).envelope.message == InternalError
    ensures CreateAppointmentResponse(Raised(Unexpected(text))).envelope.message == InternalError
  {
  }

  /* ---------------- login ---------------- */

  /** POST /auth/login. */
  function LoginResponse(a: Attempt<Option<Tokens>>): (r: Response<Tokens>)
    ensures r.Ok() <==> a.Returned? && a.value.Some?
    ensures a.Returned? && a.value.Some? ==> r == Response(200, Served(Some(Record(a.value.value))))
    ensures a.Returned? && a.value.None? ==> r == Response(401, Refused("auth/invalid-credentials", "Invalid username or password"))
    ensures a.Invalid? ==> r == Response(400, Refused("auth/validation-error", a.fieldError.msg))
    ensures a.Raised? ==> r == Response(500, Refused("auth/login-failed", InternalError))
  {
    match a
    case Invalid(fe) => ErrorResponse(fe.msg, "auth/validation-error", 400)
    case Raised(_) => ErrorResponse(InternalError, "auth/login-failed", 500)
    case Returned(tokens) =>
      if tokens.Some? then SuccessResponse(Record(tokens.value), 200)
      else ErrorResponse("Invalid username or password", "auth/invalid-credentials", 401)
  }
}
