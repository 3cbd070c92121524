/** `AppointmentService` (app/services/appointment.py): booking, rescheduling
    and the queries, over the three repositories that share one store. */
module Scheduling {
  import opened Results
  import opened Text
  import opened Clock
  import opened Errors
  import opened People
  import opened AppointmentModel
  import opened AppointmentSchemas
  import opened Store
  import opened Admission

  /** What a create body asks for; it carries no id. */
  function Requested(c: AppointmentCreate): Candidate
  {
    Candidate(None, c.doctorId, c.patientId, c.datetime)
  }

  /** The merged record an update re-validates, under its own id. */
  function Proposed(a: Appointment): Candidate
  {
    Candidate(Some(a.id), a.doctorId, a.patientId, a.datetime)
  }

  function AppointmentNotFound(id: int): Error
  {
    ResourceNotFound(NotFoundMsg("Appointment", id), "appointment/not-found")
  }

  /** What the booking rule says about an update: it is only consulted when
      the update touches doctor, patient or datetime. */
  function UpdateVerdict(appts: map<int, Appointment>, doctors: map<int, Doctor>, patients: map<int, Patient>,
                         id: int, u: AppointmentUpdate): Outcome<Error>
    requires id in appts
  {
    if TouchesSchedule(u) then Admit(doctors, patients, appts, Proposed(ApplyUpdate(appts[id], u))) else Pass
  }

  class AppointmentService {
    const appointmentRepo: AppointmentRepository
    const doctorRepo: DoctorRepository
    const patientRepo: PatientRepository

    /** The three repositories work on the same store. */
    predicate Wired()
    {
      doctorRepo.db == appointmentRepo.db && patientRepo.db == appointmentRepo.db
    }

    function Db(): Database
    {
      appointmentRepo.db
    }

    constructor (appointmentRepo: AppointmentRepository, doctorRepo: DoctorRepository, patientRepo: PatientRepository)
      requires doctorRepo.db == appointmentRepo.db && patientRepo.db == appointmentRepo.db
      ensures Wired()
      ensures this.appointmentRepo == appointmentRepo && this.doctorRepo == doctorRepo && this.patientRepo == patientRepo
    {
      this.appointmentRepo := appointmentRepo;
      this.doctorRepo := doctorRepo;
      this.patientRepo := patientRepo;
    }

    /** `_validate_appointment`: the lookups, the hours check, then one pass
        over the doctor's appointments of that day's window. */
    method ValidateAppointment(c: Candidate) returns (outcome: Outcome<Error>)
      requires Wired()
      ensures outcome == Admit(Db().doctors, Db().patients, Db().appointments, c)
    {
      var doctor := doctorRepo.GetById(c.doctorId);
      if doctor.None? {
        return Fail(DoctorNotFound(c.doctorId));
      }
      var patient := patientRepo.GetById(c.patientId);
      if patient.None? {
        return Fail(PatientNotFound(c.patientId));
      }
      var d := doctor.value;
      var t := TimeOf(c.datetime);
      if t < d.workStart || t >= d.workEnd {
        return Fail(Validation(OutsideHoursMsg));
      }
      var day := DateOf(c.datetime);
      var existing := appointmentRepo.GetDoctorAppointments(d.id, Combine(day, d.workStart), Combine(day, d.workEnd));
      var rest := existing;
      while exists x :: x in rest
        invariant rest <= existing
        invariant forall x :: x in existing && x !in rest ==> !TooClose(x, c)
        decreases |rest|
      {
        var x :| x in rest;
        if TooClose(x, c) {
          assert x in Window(d, Db().appointments, c.datetime);
          return Fail(Validation(BookedMsg));
        }
        rest := rest - {x};
      }
      outcome := Pass;
    }

    /** `create_appointment`: the rule decides; only an admitted booking is
        stored. */
    method CreateAppointment(c: AppointmentCreate) returns (r: Result<Appointment, Error>)
      requires Wired() && Db().Valid()
      modifies Db()
      ensures Db().Valid()
      ensures var verdict := Admit(old(Db().doctors), old(Db().patients), old(Db().appointments), Requested(c));
        && (verdict.Fail? ==> r == Failure(verdict.error) && unchanged(Db()))
        && (verdict.Pass? ==>
              && r == Success(NewAppointment(old(Db().nextAppointmentId), c))
              && r.value.id !in old(Db().appointments)
              && Db().appointments == old(Db().appointments)[r.value.id := r.value])
      ensures Db().doctors == old(Db().doctors) && Db().patients == old(Db().patients)
      ensures Db().employees == old(Db().employees)
      ensures old(Db().Linked()) ==> Db().Linked()
      ensures old(DaySpaced(Db().doctors, Db().appointments)) ==> DaySpaced(Db().doctors, Db().appointments)
    {
      var verdict := ValidateAppointment(Requested(c));
      if verdict.Fail? {
        return Failure(verdict.error);
      }
      ghost var before := Db().appointments;
      var a := appointmentRepo.Create(c);
      if DaySpaced(Db().doctors, before) {
        CreateKeepsSpacing(Db().doctors, Db().patients, before, a);
      }
      r := Success(a);
    }

    /** `get_all_appointments`: every stored appointment, and nothing else. */
    function GetAllAppointments(): (r: set<Appointment>)
      reads appointmentRepo.db
      ensures forall k :: k in Db().appointments ==> Db().appointments[k] in r
      ensures forall x :: x in r ==> exists k :: k in Db().appointments && Db().appointments[k] == x
    {
      appointmentRepo.GetAll()
    }

    function GetAppointmentById(id: int): (r: Option<Appointment>)
      reads appointmentRepo.db
      ensures r.Some? <==> id in Db().appointments
      ensures r.Some? ==> r.value == Db().appointments[id]
    {
      appointmentRepo.GetById(id)
    }

    /** `update_appointment`: a missing id is an error; a change of doctor,
        patient or datetime is re-validated as the merged record under its own
        id; then the set keys are written. */
    method UpdateAppointment(id: int, u: AppointmentUpdate) returns (r: Result<Option<Appointment>, Error>)
      requires Wired() && Db().Valid()
      modifies Db()
      ensures Db().Valid()
      ensures id !in old(Db().appointments) ==> r == Failure(AppointmentNotFound(id)) && unchanged(Db())
      ensures id in old(Db().appointments) ==>
        var a := ApplyUpdate(old(Db().appointments)[id], u);
        var verdict := UpdateVerdict(old(Db().appointments), old(Db().doctors), old(Db().patients), id, u);
        && (verdict.Fail? ==> r == Failure(verdict.error) && unchanged(Db()))
        && (verdict.Pass? ==> r == Success(Some(a)) && Db().appointments == old(Db().appointments)[id := a])
      ensures Db().doctors == old(Db().doctors) && Db().patients == old(Db().patients)
      ensures Db().employees == old(Db().employees)
      ensures old(Db().Linked()) ==> Db().Linked()
      ensures old(DaySpaced(Db().doctors, Db().appointments)) ==> DaySpaced(Db().doctors, Db().appointments)
    {
      var existing := GetAppointmentById(id);
      if existing.None? {
        return Failure(AppointmentNotFound(id));
      }
      var merged := ApplyUpdate(existing.value, u);
      if u.doctorId.Some? || u.patientId.Some? || u.datetime.Some? {
        var verdict := ValidateAppointment(Proposed(merged));
        if verdict.Fail? {
          return Failure(verdict.error);
        }
      }
      ghost var before := Db().appointments;
      var updated := appointmentRepo.Update(id, u);
      if DaySpaced(Db().doctors, before) {
        if TouchesSchedule(u) {
          MoveKeepsSpacing(Db().doctors, Db().patients, before, merged);
        } else {
          RetouchKeepsSpacing(Db().doctors, before, merged);
        }
      }
      r := Success(updated);
    }

    method DeleteAppointment(id: int) returns (existed: bool)
      requires Wired() && Db().Valid()
      modifies Db()
      ensures Db().Valid()
      ensures existed <==> id in old(Db().appointments)
      ensures Db().appointments == old(Db().appointments) - {id}
      ensures Db().doctors == old(Db().doctors) && Db().patients == old(Db().patients)
      ensures Db().employees == old(Db().employees)
      ensures old(Db().Linked()) ==> Db().Linked()
    {
      existed := appointmentRepo.Delete(id);
    }

    method FilterAppointments(f: AppointmentFilter) returns (result: set<Appointment>)
      ensures result == Filtered(Db().appointments, f)
    {
      result := appointmentRepo.FilterAppointments(f);
    }
  }
}
