/** The appointment request schemas (app/schemas/appointment.py): the create
    body with its defaults, the update patch, and the list filter. */
module AppointmentSchemas {
  import opened Results
  import opened SchemaBase
  import opened AppointmentModel

  /** A create body as supplied: every field present or not. */
  datatype AppointmentFields = AppointmentFields(
    patientId: Option<int>,
    doctorId: Option<int>,
    datetime: Option<int>,
    diagnose: Option<string>,
    notes: Option<string>,
    status: Option<Status>)

  datatype AppointmentCreate = AppointmentCreate(
    patientId: int,
    doctorId: int,
    datetime: int,
    diagnose: Option<string>,
    notes: Option<string>,
    status: Status)

  /** `AppointmentCreate(**body)`: patient_id, doctor_id and datetime are
      required; status defaults to IN_QUEUE, diagnose and notes to None. */
  function ParseAppointmentCreate(f: AppointmentFields): (r: Result<AppointmentCreate, FieldError>)
    ensures r.Success? <==> f.patientId.Some? && f.doctorId.Some? && f.datetime.Some?
    ensures r.Success? ==> r.value.patientId == f.patientId.value && r.value.doctorId == f.doctorId.value
                           && r.value.datetime == f.datetime.value
    ensures r.Success? ==> r.value.diagnose == f.diagnose && r.value.notes == f.notes
    ensures r.Success? ==> r.value.status == (if f.status.Some? then f.status.value else InQueue)
    ensures f.patientId.None? ==> r == Failure(FieldError("patient_id", FieldRequired))
  {
    var patientId :- Required("patient_id", f.patientId);
    var doctorId :- Required("doctor_id", f.doctorId);
    var datetime :- Required("datetime", f.datetime);
    var status := if f.status.Some? then f.status.value else InQueue;
    Success(AppointmentCreate(patientId, doctorId, datetime, f.diagnose, f.notes, status))
  }

  /** `AppointmentUpdate` after `model_dump(exclude_unset=True)`: a field is
      Some exactly when the request set it. diagnose and notes may be set to
      null, hence the inner Option. */
  datatype AppointmentUpdate = AppointmentUpdate(
    status: Option<Status>,
    diagnose: Option<Option<string>>,
    notes: Option<Option<string>>,
    patientId: Option<int>,
    doctorId: Option<int>,
    datetime: Option<int>)

  /** The service re-validates exactly when one of these keys is set. */
  predicate TouchesSchedule(u: AppointmentUpdate)
  {
    u.doctorId.Some? || u.patientId.Some? || u.datetime.Some?
  }

  /** The record with every set field of `u` written over it and every other
      field kept; the id is never among the keys. */
  function ApplyUpdate(a: Appointment, u: AppointmentUpdate): (r: Appointment)
    ensures r.id == a.id
    ensures u.status.Some? ==> r.status == u.status.value
    ensures u.status.None? ==> r.status == a.status
    ensures u.diagnose.Some? ==> r.diagnose == u.diagnose.value
    ensures u.diagnose.None? ==> r.diagnose == a.diagnose
    ensures u.notes.Some? ==> r.notes == u.notes.value
    ensures u.notes.None? ==> r.notes == a.notes
    ensures u.patientId.Some? ==> r.patientId == u.patientId.value
    ensures u.patientId.None? ==> r.patientId == a.patientId
    ensures u.doctorId.Some? ==> r.doctorId == u.doctorId.value
    ensures u.doctorId.None? ==> r.doctorId == a.doctorId
    ensures u.datetime.Some? ==> r.datetime == u.datetime.value
    ensures u.datetime.None? ==> r.datetime == a.datetime
  {
    a.(status := Overlay(a.status, u.status), diagnose := Overlay(a.diagnose, u.diagnose),
       notes := Overlay(a.notes, u.notes), patientId := Overlay(a.patientId, u.patientId),
       doctorId := Overlay(a.doctorId, u.doctorId), datetime := Overlay(a.datetime, u.datetime))
  }

  lemma ApplyUpdateIdempotent(a: Appointment, u: AppointmentUpdate)
    ensures ApplyUpdate(ApplyUpdate(a, u), u) == ApplyUpdate(a, u)
  {
  }

  /** The record built from a create body and the store's new id. */
  function NewAppointment(id: int, c: AppointmentCreate): (a: Appointment)
    ensures a.id == id && a.doctorId == c.doctorId && a.patientId == c.patientId && a.datetime == c.datetime
    ensures a.status == c.status && a.diagnose == c.diagnose && a.notes == c.notes
  {
    Appointment(id, c.patientId, c.doctorId, c.datetime, c.status, c.diagnose, c.notes)
  }

  /** `AppointmentFilter`: every field optional. */
  datatype AppointmentFilter = AppointmentFilter(
    patientId: Option<int>,
    doctorId: Option<int>,
    status: Option<Status>,
    startDate: Option<int>,
    endDate: Option<int>)

  /** `if filters.patient_id:` — an id filter constrains only when it is
      present and truthy, so an id of 0 is no constraint. */
  predicate ActiveId(v: Option<int>) { v.Some? && v.value != 0 }

  /** The reference meaning of a filter: the conjunction of its active parts,
      with the date range start-inclusive and end-exclusive. */
  predicate Matches(a: Appointment, f: AppointmentFilter)
  {
    && (ActiveId(f.patientId) ==> a.patientId == f.patientId.value)
    && (ActiveId(f.doctorId) ==> a.doctorId == f.doctorId.value)
    && (f.status.Some? ==> a.status == f.status.value)
    && (f.startDate.Some? ==> f.startDate.value <= a.datetime)
    && (f.endDate.Some? ==> a.datetime < f.endDate.value)
  }

  const NoFilter := AppointmentFilter(None, None, None, None, None)

  lemma EmptyFilterMatchesAll(a: Appointment)
    ensures Matches(a, NoFilter)
    ensures Matches(a, AppointmentFilter(Some(0), Some(0), None, None, None))
  {
  }

  /** The date range selects exactly the datetimes in `[start, end)`. */
  lemma DateRangeHalfOpen(a: Appointment, start: int, end: int)
    ensures Matches(a, AppointmentFilter(None, None, None, Some(start), Some(end))) <==> start <= a.datetime < end
  {
  }

  /** A filter is the conjunction of its single-field filters. */
  lemma FilterIsConjunction(a: Appointment, f: AppointmentFilter)
    ensures Matches(a, f) <==>
      && Matches(a, NoFilter.(patientId := f.patientId))
      && Matches(a, NoFilter.(doctorId := f.doctorId))
      && Matches(a, NoFilter.(status := f.status))
      && Matches(a, NoFilter.(startDate := f.startDate))
      && Matches(a, NoFilter.(endDate := f.endDate))
  {
  }
}
