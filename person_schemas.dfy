/** The request schemas of the three directories (app/schemas/patient.py,
    app/schemas/doctor.py, and the doctor/employee base in app/schemas/base.py).
    A request body is a record of fields, each supplied or not; a Create schema
    needs some of them, an Update schema none. Parsing reports the first failing
    field in declaration order, as `errors()[0]` does. */
module PersonSchemas {
  import opened Results
  import opened Text
  import opened Clock
  import opened People
  import opened SchemaBase

  /** Pydantic's messages for the `Field(min_length, max_length, pattern)`
      constraints. */
  function TooShortMsg(n: nat): string { "String should have at least " + NatToString(n) + " characters" }
  function TooLongMsg(n: nat): string { "String should have at most " + NatToString(n) + " characters" }
  const DigitsPattern := "^\\d+$"
  function PatternMsg(p: string): string { "String should match pattern '" + p + "'" }

  /** A constrained string field: length bounds first, then the optional
      all-digits pattern. */
  function Constrained(loc: string, v: string, lo: nat, hi: nat, digitsOnly: bool): (r: Result<string, FieldError>)
    ensures r.Success? <==> lo <= |v| <= hi && (digitsOnly ==> |v| > 0 && AllDigits(v))
    ensures r.Success? ==> r.value == v
    ensures |v| < lo ==> r == Failure(FieldError(loc, TooShortMsg(lo)))
    ensures lo <= |v| && |v| > hi ==> r == Failure(FieldError(loc, TooLongMsg(hi)))
    ensures lo <= |v| <= hi && digitsOnly && !(|v| > 0 && AllDigits(v)) ==>
      r == Failure(FieldError(loc, PatternMsg(DigitsPattern)))
  {
    if |v| < lo then Failure(FieldError(loc, TooShortMsg(lo)))
    else if |v| > hi then Failure(FieldError(loc, TooLongMsg(hi)))
    else if digitsOnly && !(|v| > 0 && AllDigits(v)) then Failure(FieldError(loc, PatternMsg(DigitsPattern)))
    else Success(v)
  }

  /** `no_ktp`: exactly sixteen decimal digits. */
  predicate ValidKtp(v: string) { |v| == 16 && AllDigits(v) }

  /** `address`: five to two hundred characters. */
  predicate ValidAddress(v: string) { 5 <= |v| <= 200 }

  function CheckKtp(v: string): (r: Result<string, FieldError>)
    ensures r.Success? <==> ValidKtp(v)
    ensures r.Success? ==> r.value == v
  {
    Constrained("no_ktp", v, 16, 16, true)
  }

  function CheckAddress(v: string): (r: Result<string, FieldError>)
    ensures r.Success? <==> ValidAddress(v)
    ensures r.Success? ==> r.value == v
  {
    Constrained("address", v, 5, 200, false)
  }

  function OptionalField(v: Option<string>, check: string -> Result<string, FieldError>): (r: Result<Option<string>, FieldError>)
    ensures r.Success? <==> v.None? || check(v.value).Success?
    ensures r.Success? ==> r.value == (if v.None? then None else Some(check(v.value).value))
  {
    if v.None? then Success(None)
    else match check(v.value)
      case Success(x) => Success(Some(x))
      case Failure(e) => Failure(e)
  }

  // ---- patient --------------------------------------------------------------

  datatype PatientFields = PatientFields(
    name: Option<string>,
    gender: Option<Gender>,
    birthdate: Option<int>,
    noKtp: Option<string>,
    address: Option<string>)

  datatype PatientCreate = PatientCreate(
    name: string,
    gender: Gender,
    birthdate: int,
    noKtp: string,
    address: string)

  predicate PatientCreateValid(f: PatientFields)
  {
    && f.name.Some? && ValidateName(f.name.value).Success?
    && f.gender.Some? && f.birthdate.Some?
    && f.noKtp.Some? && ValidKtp(f.noKtp.value)
    && f.address.Some? && ValidAddress(f.address.value)
  }

  /** `PatientCreate(**body)`: name, gender, birthdate, no_ktp and address are
      all required and checked. */
  function ParsePatientCreate(f: PatientFields): (r: Result<PatientCreate, FieldError>)
    ensures r.Success? <==> PatientCreateValid(f)
    ensures r.Success? ==> r.value == PatientCreate(f.name.value, f.gender.value, f.birthdate.value, f.noKtp.value, f.address.value)
    ensures f.name.None? ==> r == Failure(FieldError("name", FieldRequired))
  {
    var name :- RequiredChecked("name", f.name, ValidateName);
    var gender :- Required("gender", f.gender);
    var birthdate :- Required("birthdate", f.birthdate);
    var ktp :- Required("no_ktp", f.noKtp);
    var noKtp :- CheckKtp(ktp);
    var addr :- Required("address", f.address);
    var address :- CheckAddress(addr);
    Success(PatientCreate(name, gender, birthdate, noKtp, address))
  }

  predicate PatientUpdateValid(f: PatientFields)
  {
    && (f.name.Some? ==> ValidateName(f.name.value).Success?)
    && (f.noKtp.Some? ==> ValidKtp(f.noKtp.value))
    && (f.address.Some? ==> ValidAddress(f.address.value))
  }

  /** `PatientUpdate(**body)`: every field optional, the same checks on the
      supplied ones; a valid body is passed on as given. */
  function ParsePatientUpdate(f: PatientFields): (r: Result<PatientFields, FieldError>)
    ensures r.Success? <==> PatientUpdateValid(f)
    ensures r.Success? ==> r.value == f
  {
    var _ :- OptionalChecked("name", f.name, ValidateName);
    var _ :- OptionalField(f.noKtp, CheckKtp);
    var _ :- OptionalField(f.address, CheckAddress);
    Success(f)
  }

  /** An update that supplies only a three-digit KTP is refused on that field. */
  lemma ShortKtpUpdateRejected()
    ensures ParsePatientUpdate(PatientFields(None, None, None, Some("987"), None))
         == Failure(FieldError("no_ktp", TooShortMsg(16)))
  {
  }

  /** A created patient record: the vaccine fields start empty. */
  function NewPatient(id: int, c: PatientCreate): (p: Patient)
    ensures p.id == id && p.name == c.name && p.gender == c.gender && p.birthdate == c.birthdate
    ensures p.noKtp == c.noKtp && p.address == c.address
    ensures p.vaccineType.None? && p.vaccineCount.None?
  {
    Patient(id, c.name, c.gender, c.birthdate, c.noKtp, c.address, None, None)
  }

  /** The store's update of a patient: `setattr` of each supplied field; the
      other fields, the vaccine fields among them, are kept. */
  function ApplyPatientFields(p: Patient, f: PatientFields): (r: Patient)
    ensures r.id == p.id && r.vaccineType == p.vaccineType && r.vaccineCount == p.vaccineCount
    ensures f.name.Some? ==> r.name == f.name.value
    ensures f.name.None? ==> r.name == p.name
    ensures f.gender.Some? ==> r.gender == f.gender.value
    ensures f.gender.None? ==> r.gender == p.gender
    ensures f.birthdate.Some? ==> r.birthdate == f.birthdate.value
    ensures f.birthdate.None? ==> r.birthdate == p.birthdate
    ensures f.noKtp.Some? ==> r.noKtp == f.noKtp.value
    ensures f.noKtp.None? ==> r.noKtp == p.noKtp
    ensures f.address.Some? ==> r.address == f.address.value
    ensures f.address.None? ==> r.address == p.address
  {
    p.(name := Overlay(p.name, f.name), gender := Overlay(p.gender, f.gender),
       birthdate := Overlay(p.birthdate, f.birthdate), noKtp := Overlay(p.noKtp, f.noKtp),
       address := Overlay(p.address, f.address))
  }

  // ---- doctor and employee --------------------------------------------------

  /** The body of a doctor or employee request (`DoctorEmployeeCreate`,
      `DoctorEmployeeUpdate`, whose employee subclasses add nothing). */
  datatype PersonFields = PersonFields(
    name: Option<string>,
    gender: Option<Gender>,
    birthdate: Option<int>,
    username: Option<string>,
    password: Option<string>)

  datatype EmployeeCreate = EmployeeCreate(
    name: string,
    gender: Gender,
    birthdate: int,
    username: string,
    password: string)

  predicate PersonCreateValid(f: PersonFields)
  {
    && f.name.Some? && ValidateName(f.name.value).Success?
    && f.gender.Some? && f.birthdate.Some?
    && f.username.Some? && ValidateUsername(f.username.value).Success?
    && f.password.Some? && ValidatePassword(f.password.value).Success?
  }

  predicate PersonUpdateValid(f: PersonFields)
  {
    && (f.name.Some? ==> ValidateName(f.name.value).Success?)
    && (f.username.Some? ==> ValidateUsername(f.username.value).Success?)
    && (f.password.Some? ==> ValidatePassword(f.password.value).Success?)
  }

  /** `EmployeeCreate(**body)`. */
  function ParseEmployeeCreate(f: PersonFields): (r: Result<EmployeeCreate, FieldError>)
    ensures r.Success? <==> PersonCreateValid(f)
    ensures r.Success? ==> r.value == EmployeeCreate(f.name.value, f.gender.value, f.birthdate.value, f.username.value, f.password.value)
  {
    var name :- RequiredChecked("name", f.name, ValidateName);
    var gender :- Required("gender", f.gender);
    var birthdate :- Required("birthdate", f.birthdate);
    var username :- RequiredChecked("username", f.username, ValidateUsername);
    var password :- RequiredChecked("password", f.password, ValidatePassword);
    Success(EmployeeCreate(name, gender, birthdate, username, password))
  }

  /** `EmployeeUpdate(**body)`: absent username and password pass unchecked. */
  function ParsePersonUpdate(f: PersonFields): (r: Result<PersonFields, FieldError>)
    ensures r.Success? <==> PersonUpdateValid(f)
    ensures r.Success? ==> r.value == f
  {
    var _ :- OptionalChecked("name", f.name, ValidateName);
    var _ :- OptionalChecked("username", f.username, ValidateUsername);
    var _ :- OptionalChecked("password", f.password, ValidatePassword);
    Success(f)
  }

  datatype DoctorFields = DoctorFields(
    person: PersonFields,
    workStart: Option<TimeOfDay>,
    workEnd: Option<TimeOfDay>)

  datatype DoctorCreate = DoctorCreate(
    name: string,
    gender: Gender,
    birthdate: int,
    username: string,
    password: string,
    workStart: TimeOfDay,
    workEnd: TimeOfDay)

  /** `DoctorCreate(**body)`: the person fields, then both working-hours
      fields, required. No order between start and end is demanded. */
  function ParseDoctorCreate(f: DoctorFields): (r: Result<DoctorCreate, FieldError>)
    ensures r.Success? <==> PersonCreateValid(f.person) && f.workStart.Some? && f.workEnd.Some?
    ensures r.Success? ==>
      r.value == DoctorCreate(f.person.name.value, f.person.gender.value, f.person.birthdate.value,
                              f.person.username.value, f.person.password.value,
                              f.workStart.value, f.workEnd.value)
  {
    var p :- ParseEmployeeCreate(f.person);
    var start :- Required("work_start_time", f.workStart);
    var end :- Required("work_end_time", f.workEnd);
    Success(DoctorCreate(p.name, p.gender, p.birthdate, p.username, p.password, start, end))
  }

  /** A doctor whose day ends before it starts is still a valid request. */
  lemma InvertedHoursAccepted(f: PersonFields)
    requires PersonCreateValid(f)
    ensures ParseDoctorCreate(DoctorFields(f, Some(17 * 3600), Some(9 * 3600))).Success?
  {
  }

  /** `DoctorUpdate(**body)`: every field optional. */
  function ParseDoctorUpdate(f: DoctorFields): (r: Result<DoctorFields, FieldError>)
    ensures r.Success? <==> PersonUpdateValid(f.person)
    ensures r.Success? ==> r.value == f
  {
    var _ :- ParsePersonUpdate(f.person);
    Success(f)
  }

  function NewEmployee(id: int, c: EmployeeCreate): (e: Employee)
    ensures e.id == id && e.name == c.name && e.gender == c.gender && e.birthdate == c.birthdate
    ensures e.username == c.username && e.password == c.password
  {
    Employee(id, c.name, c.gender, c.birthdate, c.username, c.password)
  }

  function NewDoctor(id: int, c: DoctorCreate): (d: Doctor)
    ensures d.id == id && d.name == c.name && d.gender == c.gender && d.birthdate == c.birthdate
    ensures d.username == c.username && d.password == c.password
    ensures d.workStart == c.workStart && d.workEnd == c.workEnd
  {
    Doctor(id, c.name, c.gender, c.birthdate, c.username, c.password, c.workStart, c.workEnd)
  }

  /** The store's update of an employee: each supplied key is written over
      the record, every other field is kept. */
  function ApplyEmployeeFields(e: Employee, f: PersonFields): (r: Employee)
    ensures r.id == e.id
    ensures f.name.Some? ==> r.name == f.name.value
    ensures f.name.None? ==> r.name == e.name
    ensures f.gender.Some? ==> r.gender == f.gender.value
    ensures f.gender.None? ==> r.gender == e.gender
    ensures f.birthdate.Some? ==> r.birthdate == f.birthdate.value
    ensures f.birthdate.None? ==> r.birthdate == e.birthdate
    ensures f.username.Some? ==> r.username == f.username.value
    ensures f.username.None? ==> r.username == e.username
    ensures f.password.Some? ==> r.password == f.password.value
    ensures f.password.None? ==> r.password == e.password
  {
    e.(name := Overlay(e.name, f.name), gender := Overlay(e.gender, f.gender),
       birthdate := Overlay(e.birthdate, f.birthdate), username := Overlay(e.username, f.username),
       password := Overlay(e.password, f.password))
  }

  /** The store's update of a doctor, the working hours included. */
  function ApplyDoctorFields(d: Doctor, f: DoctorFields): (r: Doctor)
    ensures r.id == d.id
    ensures f.person.name.Some? ==> r.name == f.person.name.value
    ensures f.person.name.None? ==> r.name == d.name
    ensures f.person.gender.Some? ==> r.gender == f.person.gender.value
    ensures f.person.gender.None? ==> r.gender == d.gender
    ensures f.person.birthdate.Some? ==> r.birthdate == f.person.birthdate.value
    ensures f.person.birthdate.None? ==> r.birthdate == d.birthdate
    ensures f.person.username.Some? ==> r.username == f.person.username.value
    ensures f.person.username.None? ==> r.username == d.username
    ensures f.person.password.Some? ==> r.password == f.person.password.value
    ensures f.person.password.None? ==> r.password == d.password
    ensures f.workStart.Some? ==> r.workStart == f.workStart.value
    ensures f.workStart.None? ==> r.workStart == d.workStart
    ensures f.workEnd.Some? ==> r.workEnd == f.workEnd.value
    ensures f.workEnd.None? ==> r.workEnd == d.workEnd
  {
    var p := f.person;
    d.(name := Overlay(d.name, p.name), gender := Overlay(d.gender, p.gender),
       birthdate := Overlay(d.birthdate, p.birthdate), username := Overlay(d.username, p.username),
       password := Overlay(d.password, p.password),
       workStart := Overlay(d.workStart, f.workStart), workEnd := Overlay(d.workEnd, f.workEnd))
  }

  /** Applying the same update twice changes nothing more. */
  lemma ApplyDoctorFieldsIdempotent(d: Doctor, f: DoctorFields)
    ensures ApplyDoctorFields(ApplyDoctorFields(d, f), f) == ApplyDoctorFields(d, f)
  {
  }

  /** An update with no fields leaves the record as it was. */
  lemma EmptyUpdatesChangeNothing(d: Doctor, p: Patient, e: Employee)
    ensures ApplyDoctorFields(d, DoctorFields(PersonFields(None, None, None, None, None), None, None)) == d
    ensures ApplyPatientFields(p, PatientFields(None, None, None, None, None)) == p
    ensures ApplyEmployeeFields(e, PersonFields(None, None, None, None, None)) == e
  {
  }

  /** The schema allows names longer than the 120 characters the name column
      declares. */
  lemma NameMayExceedColumn(v: string)
    requires |v| == 128
    ensures ValidateName(v).Success? && |v| > NameColumnLength
  {
  }
}
