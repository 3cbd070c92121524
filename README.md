# Clinic appointment backend (delman-api), modelled in Dafny

This project models the core of `delman-api`, the Flask back end of a clinic. It manages three
directories (doctors, patients and employees) and the appointments booked between doctors and
patients. The model covers five layers.

- **Request schemas.** The pydantic models: their required and optional fields, the name,
  username and password validators, the KTP-number and address constraints, and the defaults of
  an appointment. A parse reports the first failing field in declaration order, with pydantic's
  message.
- **Store.** One `Store.Database` object holds one map per table, from primary key to record,
  plus the next key each table hands out. Four repository classes share it.
  - Each repository's methods change the maps as the SQLAlchemy session would.
  - Deleting a doctor or a patient cascades to their appointments.
  - A unique-constraint violation comes back as the driver's `IntegrityError`. SQLite is the
    configured default, so its text is `UNIQUE constraint failed: <table>.<column>`.
  - The invariant `Database.Valid` holds three things: primary keys, unique doctor and employee
    usernames, and unique patient KTP numbers.
  - The store also keeps the foreign-key invariant `Database.Linked`.
- **Booking rule.** `_validate_appointment` is stated once, as the function `Admission.Admit`.
  `Admission.AdmitIff` proves a declarative reading of it, in both directions. The service
  method `Scheduling.AppointmentService.ValidateAppointment` is a loop over the fetched
  appointments, and it is proved equal to `Admit`. Create and update are proved to preserve
  `Admission.DaySpaced`: two appointments of one doctor on one day, both inside working hours,
  are at least thirty minutes apart.
- **Services.** The patient, doctor and employee services turn a store conflict into the
  application's typed error by a lower-cased substring test. Password hashing is a parameter.
  Login looks up the employee by username and checks the password with an uninterpreted hash
  check. It then issues both tokens, either of which may fail.
- **Routes.** Each Flask handler is a function. It maps what the `try` block ended with
  (`Responses.Attempt`: a schema error, a raised error, or a returned value) to an HTTP status
  and a JSON envelope, following the `except` clauses in their written order.

Datetimes are whole seconds and times of day are seconds since midnight (`Clock`). `date()`,
`time()` and `datetime.combine` are floor division, remainder and its inverse.

## Model

| member | source | states |
|---|---|---|
| Clock.Combine | delman-api/app/services/appointment.py:62-64 | `datetime.combine(day, t)` has exactly that date and that time of day |
| Clock.InDayWindow | delman-api/app/services/appointment.py:62-65 | a datetime lies in `[combine(day,s), combine(day,e))` iff it falls on `day` with time of day in `[s, e)` |
| Clock.FormatTime | delman-api/app/utils/__init__.py:20-21 | a time of day serialises as eight characters `HH:MM:SS`, digits around two colons |
| Clock.ParseFormatTime | delman-api/app/utils/__init__.py:20-21 | reading back the `HH:MM:SS` text gives the original time of day (round trip) |
| Errors.UsernameAlreadyExistsError | delman-api/app/exceptions/__init__.py:3-6 | the error keeps the username, and its message quotes it |
| Errors.NotFoundMsg | delman-api/app/services/appointment.py:28 | the "<Entity> with id <id> not found" text contains the decimal id |
| Errors.NotFoundMsgInjective | delman-api/app/routes/appointment.py:41 | different ids give different not-found messages |
| Errors.Str | delman-api/app/exceptions/__init__.py:1-25 | the string form of each of the four application errors is its message |
| AppointmentModel.StatusRoundTrip | delman-api/app/models/appointment.py:5-8 | exactly the three names IN_QUEUE, DONE and CANCELLED denote a status, and the name and the status convert both ways |
| AppointmentSchemas.ParseAppointmentCreate | delman-api/app/schemas/appointment.py:7-13 | the parse succeeds iff patient_id, doctor_id and datetime are present; status defaults to IN_QUEUE; diagnose and notes stay as given (default None); a missing patient_id is the reported error |
| AppointmentSchemas.ApplyUpdate | delman-api/app/repositories/appointment.py:26-32 | the id never changes; each of status, diagnose, notes, patient, doctor and datetime takes the supplied value when the update carries one and keeps the stored value otherwise |
| AppointmentSchemas.ApplyUpdateIdempotent | delman-api/app/repositories/appointment.py:29-30 | writing the same set keys twice is the same as writing them once |
| AppointmentSchemas.NewAppointment | delman-api/app/repositories/appointment.py:10-14 | a created appointment carries the new id and every field of the request |
| AppointmentSchemas.EmptyFilterMatchesAll | delman-api/app/repositories/appointment.py:51-63 | an empty filter, or one whose ids are the falsy 0, matches every appointment |
| AppointmentSchemas.DateRangeHalfOpen | delman-api/app/repositories/appointment.py:59-62 | the date filters select exactly the datetimes in `[start_date, end_date)` |
| AppointmentSchemas.FilterIsConjunction | delman-api/app/repositories/appointment.py:51-63 | a filter matches iff each of its single-field filters matches |
| SchemaBase.Required | delman-api/app/schemas/base.py:7-10 | a required field parses iff present, to its value; when missing the error is "Field required" at that field |
| SchemaBase.OptionalChecked | delman-api/app/schemas/base.py:88-97 | an absent optional field passes unchanged; a present one passes iff its validator does |
| SchemaBase.ValidateName | delman-api/app/schemas/base.py:12-18 | a name is accepted iff 3 <= length <= 128, unchanged; each failure has its own message, both directions |
| SchemaBase.ValidateUsernameAsWritten | delman-api/app/schemas/base.py:60-68 | the validator as written accepts iff 3 <= length <= 32 and Python's `re.match("^[a-zA-Z0-9_-]+$")` matches, which lets a final newline through |
| SchemaBase.ValidateUsername | delman-api/app/schemas/base.py:60-68 | a username is accepted iff 3 <= length <= 32 and every character is a letter, digit, `_` or `-`; each failure message holds exactly in its case |
| SchemaBase.TrailingNewlineUsernameAccepted | delman-api/app/schemas/base.py:66 | "abc\n" passes the validator as written and fails the corrected one |
| SchemaBase.UsernameValidatorsAgree | delman-api/app/schemas/base.py:60-68 | on every string not ending in a newline the two validators agree |
| SchemaBase.ValidatePassword | delman-api/app/schemas/base.py:70-82 | a password is accepted iff 8 <= length <= 32 with a digit, a lower-case and an upper-case letter and a special character; the first failing check, in the order length, digit, lower, upper, special, names the error |
| SchemaBase.StrongPasswordExample | delman-api/app/schemas/base.py:70-82 | "Pass1word!" is accepted unchanged |
| SchemaBase.NoUpperPasswordExample | delman-api/app/schemas/base.py:78-79 | "password123" fails on the missing upper-case letter |
| PersonSchemas.Constrained | delman-api/app/schemas/patient.py:6-7 | a `Field(min_length, max_length, pattern)` string passes iff its length is in bounds and, when a pattern is set, it is all digits; the failures are checked in order: too short gives pydantic's "at least N characters", then too long "at most N characters", then the pattern message |
| PersonSchemas.CheckKtp | delman-api/app/schemas/patient.py:6 | no_ktp passes iff it is exactly sixteen decimal digits |
| PersonSchemas.CheckAddress | delman-api/app/schemas/patient.py:7 | address passes iff 5 <= length <= 200 |
| PersonSchemas.OptionalField | delman-api/app/schemas/patient.py:10-11 | an absent optional constrained field passes; a present one passes iff its constraint does |
| PersonSchemas.ParsePatientCreate | delman-api/app/schemas/patient.py:5-7 | the parse succeeds iff name, gender, birthdate, no_ktp and address are present and valid, and yields exactly those values; a missing name is reported first |
| PersonSchemas.ParsePatientUpdate | delman-api/app/schemas/patient.py:9-11 | the parse succeeds iff every supplied field is valid, and passes the body on unchanged |
| PersonSchemas.ShortKtpUpdateRejected | delman-api/app/schemas/patient.py:10 | an update supplying only the KTP "987" fails on no_ktp, with the too-short message |
| PersonSchemas.NewPatient | delman-api/app/models/patient.py:10-13 | a created patient carries the new id and the request's name, gender, birthdate, KTP number and address, with the vaccine fields null |
| PersonSchemas.ApplyPatientFields | delman-api/app/repositories/patient.py:19-25 | the update keeps the id and the vaccine fields; each of name, gender, birthdate, KTP number and address takes the supplied value when there is one and keeps the stored value otherwise |
| PersonSchemas.ParseEmployeeCreate | delman-api/app/schemas/base.py:56-82 | the parse succeeds iff name, gender, birthdate, username and password are present and valid, and yields exactly those; the username is checked by the corrected rule `SchemaBase.ValidateUsername` (see Findings) |
| PersonSchemas.ParsePersonUpdate | delman-api/app/schemas/base.py:84-112 | the parse succeeds iff every supplied name, username and password is valid; absent ones pass unchecked, and the body is passed on unchanged; the username is checked by the corrected rule `SchemaBase.ValidateUsername` (see Findings) |
| PersonSchemas.ParseDoctorCreate | delman-api/app/schemas/doctor.py:5-7 | the parse succeeds iff the person fields are valid and both working-hours fields are present, and yields exactly the request's name, gender, birthdate, username, password and both hours; the username is checked by the corrected rule `SchemaBase.ValidateUsername` (see Findings) |
| PersonSchemas.InvertedHoursAccepted | delman-api/app/schemas/doctor.py:5-7 | a doctor whose hours end before they start (17:00 to 09:00) is still accepted |
| PersonSchemas.ParseDoctorUpdate | delman-api/app/schemas/doctor.py:9-11 | the parse succeeds iff the person fields are valid; the working hours are optional; the username is checked by the corrected rule `SchemaBase.ValidateUsername` (see Findings) |
| PersonSchemas.NewEmployee | delman-api/app/repositories/employee.py:7-11 | a created employee carries the new id and the given name, gender, birthdate, username and password |
| PersonSchemas.NewDoctor | delman-api/app/repositories/doctor.py:8-12 | a created doctor carries the new id and the given name, gender, birthdate, username, password, start and end of working hours |
| PersonSchemas.ApplyEmployeeFields | delman-api/app/repositories/employee.py:19-25 | the update keeps the id; each of name, gender, birthdate, username and password takes the supplied value when there is one and keeps the stored value otherwise |
| PersonSchemas.ApplyDoctorFields | delman-api/app/repositories/doctor.py:20-26 | the update keeps the id; each person field and each of the two working-hours fields takes the supplied value when there is one and keeps the stored value otherwise |
| PersonSchemas.ApplyDoctorFieldsIdempotent | delman-api/app/repositories/doctor.py:22-25 | writing the same set keys twice is the same as writing them once |
| PersonSchemas.EmptyUpdatesChangeNothing | delman-api/app/repositories/doctor.py:22-25 | an update with no keys leaves a doctor, a patient or an employee as it was |
| PersonSchemas.NameMayExceedColumn | delman-api/app/models/patient.py:7 | a 128-character name passes the schema but exceeds the 120-character column |
| Store.DoctorDayIsFilter | delman-api/app/repositories/appointment.py:42-63 | the per-doctor range query equals the filter on that doctor (any id but 0) and that date range |
| Store.EmptyFilterSelectsAll | delman-api/app/repositories/appointment.py:51-63 | the empty filter returns every stored appointment |
| Store.WithoutDoctor | delman-api/app/models/appointment.py:22 | the cascade keeps exactly the appointments of other doctors, unchanged |
| Store.WithoutPatient | delman-api/app/models/appointment.py:21 | the cascade keeps exactly the appointments of other patients, unchanged |
| Store.AppointmentRepository.GetAll | delman-api/app/repositories/appointment.py:16-17 | every stored appointment is returned, and nothing else |
| Store.AppointmentRepository.GetById | delman-api/app/repositories/appointment.py:19-24 | the row under that key, or None iff there is none |
| Store.AppointmentRepository.Create | delman-api/app/repositories/appointment.py:10-14 | exactly one row is added under a fresh key, built from the data, and get_by_id finds it; the other tables are unchanged |
| Store.AppointmentRepository.Update | delman-api/app/repositories/appointment.py:26-32 | a missing id gives None and changes nothing; otherwise the set keys are written over that row, and no other row or table changes |
| Store.AppointmentRepository.Delete | delman-api/app/repositories/appointment.py:34-40 | returns true iff the row existed; afterwards it is gone, and a second delete returns false; no id counter moves back, so a deleted id is never handed out again |
| Store.AppointmentRepository.GetDoctorAppointments | delman-api/app/repositories/appointment.py:42-49 | exactly the doctor's appointments with start <= datetime < end |
| Store.AppointmentRepository.FilterAppointments | delman-api/app/repositories/appointment.py:51-63 | the query narrowed once per truthy filter is exactly the set of appointments matching the filter's conjunction |
| Store.DoctorRepository.GetAll | delman-api/app/repositories/doctor.py:14-15 | every stored doctor, and nothing else |
| Store.DoctorRepository.GetById | delman-api/app/repositories/doctor.py:17-18 | the row under that key, or None iff there is none |
| Store.DoctorRepository.Create | delman-api/app/repositories/doctor.py:8-12 | a taken username fails with the UNIQUE-constraint integrity error and changes nothing; otherwise exactly one row is added under a fresh key |
| Store.DoctorRepository.Update | delman-api/app/repositories/doctor.py:20-26 | a missing id gives None and changes nothing; a username taken by another row fails and changes nothing; otherwise the set keys are written over that row |
| Store.DoctorRepository.Delete | delman-api/app/repositories/doctor.py:28-34 | returns true iff the row existed; the doctor and all of their appointments are removed, and the foreign keys keep resolving; the id counters are kept |
| Store.PatientRepository.GetAll | delman-api/app/repositories/patient.py:13-14 | every stored patient, and nothing else |
| Store.PatientRepository.GetById | delman-api/app/repositories/patient.py:16-17 | the row under that key, or None iff there is none |
| Store.PatientRepository.Create | delman-api/app/repositories/patient.py:7-11 | a taken KTP number fails with the UNIQUE-constraint integrity error and changes nothing; otherwise exactly one row is added |
| Store.PatientRepository.Update | delman-api/app/repositories/patient.py:19-25 | a missing id gives None and changes nothing; a KTP taken by another row fails; otherwise the set keys are written over that row |
| Store.PatientRepository.Delete | delman-api/app/repositories/patient.py:27-33 | returns true iff the row existed; the patient and all of their appointments are removed; the id counters are kept |
| Store.EmployeeRepository.GetAll | delman-api/app/repositories/employee.py:13-14 | every stored employee, and nothing else |
| Store.EmployeeRepository.GetById | delman-api/app/repositories/employee.py:16-17 | the row under that key, or None iff there is none |
| Store.EmployeeRepository.Create | delman-api/app/repositories/employee.py:7-11 | a taken username fails with the UNIQUE-constraint integrity error and changes nothing; otherwise exactly one row is added |
| Store.EmployeeRepository.Update | delman-api/app/repositories/employee.py:19-25 | a missing id gives None and changes nothing; a username taken by another row fails; otherwise the set keys are written over that row |
| Store.EmployeeRepository.Delete | delman-api/app/repositories/employee.py:27-33 | returns true iff the row existed, and removes it; the other tables and the id counters are kept |
| Store.EmployeeRepository.GetByUsername | delman-api/app/repositories/employee.py:36-37 | returns a stored employee with exactly that username, the only one; None iff no employee has it |
| Admission.WindowMembers | delman-api/app/services/appointment.py:62-65 | the fetched window holds exactly the doctor's appointments on the candidate's date and inside the working hours |
| Admission.AdmitIff | delman-api/app/services/appointment.py:47-70 | a candidate passes iff the doctor and the patient exist, its time of day is in `[start, end)`, and every other appointment of that doctor on that date and inside the hours is at least 30 minutes away |
| Admission.DoctorCheckedFirst | delman-api/app/services/appointment.py:48-54 | a missing doctor fails with "appointment/doctor-not-found", whatever the patient |
| Admission.InvertedHoursRejectAll | delman-api/app/services/appointment.py:57-59 | a doctor whose end time is not after their start time can take no appointment: every time fails the hours check |
| Admission.HalfHourApartIsFree | delman-api/app/services/appointment.py:67-70 | an appointment exactly thirty minutes away does not block |
| Admission.OwnRecordNeverBlocks | delman-api/app/services/appointment.py:68 | on update, the record never conflicts with itself |
| Admission.StatusIgnored | delman-api/app/services/appointment.py:67-70 | the status of stored appointments, CANCELLED included, never changes the verdict |
| Admission.CrossMidnightNotCompared | delman-api/app/services/appointment.py:62-65 | an appointment 20 minutes away across midnight is not compared, so the candidate passes |
| Admission.CreateKeepsSpacing | delman-api/app/services/appointment.py:14-17 | storing an admitted new appointment keeps the schedule spaced |
| Admission.MoveKeepsSpacing | delman-api/app/services/appointment.py:33-38 | storing an admitted rescheduled appointment keeps the schedule spaced |
| Admission.RetouchKeepsSpacing | delman-api/app/services/appointment.py:33-38 | an update that leaves doctor and datetime keeps the schedule spaced without any check |
| Scheduling.AppointmentService.ValidateAppointment | delman-api/app/services/appointment.py:47-70 | the lookups, the hours check and the early-exit loop return exactly the verdict of the booking rule |
| Scheduling.AppointmentService.CreateAppointment | delman-api/app/services/appointment.py:14-17 | a rejected booking returns the rule's error and changes nothing; an admitted one adds exactly one appointment; foreign keys and spacing are preserved |
| Scheduling.AppointmentService.GetAllAppointments | delman-api/app/services/appointment.py:19-20 | every stored appointment is returned, and nothing else, as the repository gives it |
| Scheduling.AppointmentService.GetAppointmentById | delman-api/app/services/appointment.py:22-23 | the stored appointment under that id, or None iff there is none |
| Scheduling.AppointmentService.UpdateAppointment | delman-api/app/services/appointment.py:25-39 | a missing id fails with "appointment/not-found" and writes nothing; a change of doctor, patient or datetime runs the rule on the merged record under its own id, while other changes skip it; only an admitted change is written; foreign keys and spacing are preserved |
| Scheduling.AppointmentService.DeleteAppointment | delman-api/app/services/appointment.py:41-42 | returns true iff the appointment existed, and removes it; the other tables are untouched |
| Scheduling.AppointmentService.FilterAppointments | delman-api/app/services/appointment.py:44-45 | exactly the appointments the filter selects |
| Directory.UniqueFailedMentions | delman-api/app/services/patient.py:15 | the store's unique-violation text for a column ending in a lower-case word passes the lower-cased test for "unique constraint" and that word |
| Directory.KtpViolationRecognised | delman-api/app/services/patient.py:14-16 | the store's KTP violation becomes the duplicate-patient error naming the KTP number |
| Directory.UsernameViolationRecognised | delman-api/app/services/doctor.py:16-18 | the store's username violation, on any table, becomes UsernameAlreadyExistsError for that username |
| Directory.OtherIntegrityReraised | delman-api/app/services/patient.py:17 | an integrity failure whose text cannot say "unique constraint" is re-raised unchanged by all three services |
| Directory.PatientService.CreatePatient | delman-api/app/services/patient.py:10-17 | fails iff the KTP number is taken, with DuplicateResourceError naming it and nothing written; otherwise the full record is stored; doctors and employees are untouched |
| Directory.PatientService.GetAllPatients | delman-api/app/services/patient.py:19-20 | every stored patient is returned, and nothing else |
| Directory.PatientService.GetPatientById | delman-api/app/services/patient.py:22-23 | the stored patient under that id, or None |
| Directory.PatientService.UpdatePatient | delman-api/app/services/patient.py:25-32 | a missing id gives None; only the set fields are written; a taken KTP fails with the duplicate error and changes nothing; the other tables are untouched |
| Directory.PatientService.DeletePatient | delman-api/app/services/patient.py:34-35 | returns true iff the patient existed; then the patient goes and the appointments become exactly those not of this patient; otherwise nothing changes; doctors and employees are untouched |
| Directory.DoctorService.CreateDoctor | delman-api/app/services/doctor.py:11-19 | the stored password is the hash of the given one and every other field is as given; fails iff the username is taken, with UsernameAlreadyExistsError('doctor', username); patients and employees are untouched |
| Directory.DoctorService.GetAllDoctors | delman-api/app/services/doctor.py:21-22 | every stored doctor is returned, and nothing else |
| Directory.DoctorService.GetDoctorById | delman-api/app/services/doctor.py:24-25 | the stored doctor under that id, or None |
| Directory.DoctorService.UpdateDoctor | delman-api/app/services/doctor.py:27-34 | only the set fields are written, a new password unhashed; a taken username fails with the username error and changes nothing; the other tables are untouched |
| Directory.DoctorService.DeleteDoctor | delman-api/app/services/doctor.py:36-37 | returns true iff the doctor existed; then the doctor goes and the appointments become exactly those not of this doctor; otherwise nothing changes; patients and employees are untouched |
| Directory.EmployeeService.CreateEmployee | delman-api/app/services/employee.py:11-19 | the stored record is `NewEmployee` of the request with the password replaced by its hash; fails iff the username is taken, with UsernameAlreadyExistsError('employee', username) and nothing written; doctors, patients and appointments are untouched |
| Directory.EmployeeService.GetAllEmployees | delman-api/app/services/employee.py:21-22 | every stored employee is returned, and nothing else |
| Directory.EmployeeService.GetEmployeeById | delman-api/app/services/employee.py:24-25 | the stored employee under that id, or None |
| Directory.EmployeeService.Hashed | delman-api/app/services/employee.py:30-31 | only a set password is replaced, by its hash; every other field is passed on unchanged |
| Directory.EmployeeService.UpdateEmployee | delman-api/app/services/employee.py:27-36 | only the set fields are written, a new password hashed; a taken username fails with the username error and changes nothing; the other tables are untouched |
| Directory.EmployeeService.DeleteEmployee | delman-api/app/services/employee.py:38-39 | returns true iff the employee existed, and removes them; the other tables are untouched |
| Auth.AuthService.Issue | delman-api/app/services/auth.py:12-13 | both tokens for one identity; an access-token failure is returned as is; with the access token issued, a refresh-token failure is returned as is |
| Auth.AuthService.Login | delman-api/app/services/auth.py:9-18 | None when no employee with that username has a matching password hash (an unknown user and a wrong password look the same); otherwise the tokens issued for that employee's id, or the issuer's failure |
| Responses.SuccessResponse | delman-api/app/utils/__init__.py:52-56 | ok is true at the given status, and the result is present iff the data is truthy |
| Responses.ErrorResponse | delman-api/app/utils/__init__.py:58-65 | ok is false, with exactly the given code, message and status |
| Responses.EmptyListOmitted | delman-api/app/utils/__init__.py:53-55 | an empty list gives the same body as no data at all |
| Responses.ConstructErrorMsg | delman-api/app/utils/__init__.py:26-30 | the text is the field, then ": ", then the message of the first error |
| Routes.NotFoundResponse | delman-api/app/routes/doctor.py:38 | 404 with "<prefix>/not-found" and the "<Entity> with id <id> not found" text |
| Routes.GetResponse | delman-api/app/routes/appointment.py:37-41 | 200 with the record iff it was found, otherwise the not-found response |
| Routes.ListResponse | delman-api/app/routes/appointment.py:30-33 | always 200; a non-empty list is the result exactly, an empty one gives no result |
| Routes.DeleteResponse | delman-api/app/routes/appointment.py:63-66 | 200 with no result iff something was deleted, otherwise the not-found response |
| Routes.AppointmentRaised | delman-api/app/routes/appointment.py:21-26 | a ValidationError gives 400, a not-found error gives 404 with its own code, anything else gives 500 with "Internal server error" |
| Routes.CreateAppointmentResponse | delman-api/app/routes/appointment.py:14-26 | 201 with the record on success; a schema error gives 400 with its message; raised errors as in AppointmentRaised, with "appointment/creation-failed" |
| Routes.UpdateAppointmentResponse | delman-api/app/routes/appointment.py:45-59 | 200 with the record, 404 for None, 400 for a schema error; raised errors as in AppointmentRaised, with "appointment/update-failed" |
| Routes.AppointmentNotFoundUniform | delman-api/app/routes/appointment.py:38-41 | a missing appointment gets the same 404 on get, update (returned or raised) and delete |
| Routes.CreatePatientResponse | delman-api/app/routes/patient.py:15-25 | 201 on success; 409 "patient/duplicate" for a duplicate; 400 with "<field>: <msg>"; any other failure gives 500 with its own text |
| Routes.UpdatePatientResponse | delman-api/app/routes/patient.py:43-56 | 200, 404 for None, 400 with "<field>: <msg>", 409 "patient/duplicate-error", other failures 500 with "Internal server error" |
| Routes.DuplicateKtpResponses | delman-api/app/routes/patient.py:20-21 | a stored KTP number gives 409 naming it, under "patient/duplicate" on create and "patient/duplicate-error" on update |
| Routes.AccountCreateResponse | delman-api/app/routes/doctor.py:14-24 | 201 on success; 400 with the first error's message; 409 "<prefix>/username-exists"; other failures 500, showing their text for doctors and "Internal server error" for employees |
| Routes.AccountUpdateResponse | delman-api/app/routes/employee.py:42-54 | 200, 404 for None, 400, 409 "<prefix>/username-exists", other failures 500 "<prefix>/update-failed" |
| Routes.TakenUsernameResponse | delman-api/app/routes/employee.py:21-22 | a stored username gives 409 with the username error's message, for doctors and employees alike |
| Routes.FailureTextExposure | delman-api/app/routes/patient.py:24-25 | an unknown failure's text reaches the client only on patient and doctor create |
| Routes.LoginResponse | delman-api/app/routes/auth.py:11-21 | 200 with the tokens; 401 "auth/invalid-credentials" for None; 400 "auth/validation-error"; 500 "auth/login-failed" |

## Left out

- Request bodies are modelled after type coercion: each field already has its type (ints for
  ids, datetimes as seconds, `Status` and gender as enum values, strings). Pydantic's type and enum
  rejections are not represented: a wrong JSON type such as a string `patient_id`, an unparsable
  date, datetime or time, a status or gender outside its enum, or a non-string name. The parsers'
  "succeeds iff" statements hold for bodies whose values already have the right types.
- Explicit JSON `null` in an update body is modelled only for `diagnose` and `notes`. Elsewhere a
  field is either supplied with a value or absent. A null name would make the update name
  validator raise a `TypeError`, which becomes a 500; the model does not follow that path.
- Character classes are ASCII. Python's `\d` and `str.lower()` also accept non-ASCII digits and
  letters.
- The birthdate validators (`strftime` on a date), `isoformat` of dates and datetimes, time
  zones and sub-second parts are not modelled. Only the `HH:MM:SS` form of a time of day is.
- Ids come from one counter per table. SQLite may reuse the largest id after a delete; the model
  never reuses an id.
- Column lengths (name 120, KTP 16, address 200) are not enforced by the store. SQLite does not
  enforce them either. `PersonSchemas.NameMayExceedColumn` records the name gap.
- `str()` of a SQLAlchemy `IntegrityError` adds statement and parameter text to the driver's
  message. The model takes the driver's message as the error's text.
- The repository `update` of the source returns the live ORM object. The update in
  `update_appointment` writes into that object's `__dict__` before validation. The model
  validates a merged copy and writes nothing until the rule admits it.
- The model does not count calls; it does not state, for example, that login looks the
  username up exactly once.
- JWT decorators (`jwt_required`, `get_current_user`, `jwt_and_current_user_required`),
  password hashing and checking, and token creation are parameters or left out. Hashing and
  checking are uninterpreted functions.
- Request parsing and the handler body are not composed. Each route function takes the
  handler's `Attempt`: the schema error, the service's raised error or its returned value.
  The list-filter handler parses `AppointmentFilter` outside its `try`, so a bad filter is
  Flask's own 500; that path is not modelled.
- `app/models/gender.py`, `app/models/doctor.py` and `app/schemas/auth.py` are not part of this
  model. Gender is an uninterpreted label, the doctor record follows the doctor schemas, and
  the login request is a username and password.
- Lists are sets in the model: the order in which `get_all` and the filters return rows is not
  modelled.
- `joinedload` of patient and doctor in the appointment `get_by_id`, and the detail response's
  nested records, are not modelled.
- Concurrency and transactions are out of scope. The scan-then-insert race between two bookings
  is not covered.
- Changing a doctor's working hours can break `Admission.DaySpaced`. The model does not claim
  the invariant across doctor updates.
- The day window `[combine(date, start), combine(date, end))` reads like a narrowing of the
  query only, but the code uses it as a boundary: appointments either side of midnight are
  never compared, even when less than thirty minutes apart. The model follows the code
  (`Admission.CrossMidnightNotCompared`).
- PersonSchemas.ParseEmployeeCreate: checks the username with the corrected rule `SchemaBase.ValidateUsername`, so it
  rejects a username ending in a newline, such as "abc\n", that `app/schemas/base.py` as written accepts (see Findings).
- PersonSchemas.ParsePersonUpdate: checks the username with the corrected rule `SchemaBase.ValidateUsername`, so it
  rejects a username ending in a newline, such as "abc\n", that `app/schemas/base.py` as written accepts (see Findings).
- PersonSchemas.ParseDoctorCreate: checks the username with the corrected rule `SchemaBase.ValidateUsername`, so it
  rejects a username ending in a newline, such as "abc\n", that `app/schemas/doctor.py` as written accepts (see Findings).
- PersonSchemas.ParseDoctorUpdate: checks the username with the corrected rule `SchemaBase.ValidateUsername`, so it
  rejects a username ending in a newline, such as "abc\n", that `app/schemas/doctor.py` as written accepts (see Findings).
- The scheduler job, seeding, configuration and application wiring are not part of this model.

## Findings

| source | as written | input that shows it | evidently intended | confidence | as-written member | corrected member |
|---|---|---|---|---|---|---|
| delman-api/app/schemas/base.py:66 | `re.match("^[a-zA-Z0-9_-]+$", v)`; Python's `$` also matches before a final newline, and the same test appears at line 95 | the username "abc\n" is accepted | only letters, digits, `_` and `-`, as the error message says; the parsers `PersonSchemas.ParseEmployeeCreate`, `ParsePersonUpdate`, `ParseDoctorCreate` and `ParseDoctorUpdate` use the corrected rule | not executed | SchemaBase.ValidateUsernameAsWritten (shown by SchemaBase.TrailingNewlineUsernameAccepted) | SchemaBase.ValidateUsername |
