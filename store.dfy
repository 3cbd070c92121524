/** The persistent store and its repositories (app/repositories). `Database`
    stands for the shared `db` every repository is built on: one map per table
    from primary key to record, and the next key each table hands out. Its
    invariant holds the tables' declared constraints: primary keys, unique
    doctor and employee usernames, unique patient KTP numbers. */
module Store {
  import opened Results
  import opened Errors
  import opened People
  import opened PersonSchemas
  import opened AppointmentModel
  import opened AppointmentSchemas

  /** The driver's message for a unique-constraint violation (SQLite, the
      configured default). */
  function UniqueFailed(table: string, column: string): string
  {
    "UNIQUE constraint failed: " + table + "." + column
  }

  /** Some record other than `id` already holds `u`. */
  predicate DoctorUsernameClash(m: map<int, Doctor>, id: int, u: string)
  {
    exists k | k in m :: k != id && m[k].username == u
  }

  predicate EmployeeUsernameClash(m: map<int, Employee>, id: int, u: string)
  {
    exists k | k in m :: k != id && m[k].username == u
  }

  predicate KtpClash(m: map<int, Patient>, id: int, ktp: string)
  {
    exists k | k in m :: k != id && m[k].noKtp == ktp
  }

  /** The same doctor's appointments with datetime in `[start, end)`. */
  function DoctorDay(appts: map<int, Appointment>, doctorId: int, start: int, end: int): set<Appointment>
  {
    set k | k in appts && appts[k].doctorId == doctorId && start <= appts[k].datetime < end :: appts[k]
  }

  /** The appointments a filter selects. */
  function Filtered(appts: map<int, Appointment>, f: AppointmentFilter): set<Appointment>
  {
    set k | k in appts && Matches(appts[k], f) :: appts[k]
  }

  /** The per-doctor range query is the filter on that doctor and that range
      (for any doctor id but the falsy 0). */
  lemma DoctorDayIsFilter(appts: map<int, Appointment>, doctorId: int, start: int, end: int)
    requires doctorId != 0
    ensures DoctorDay(appts, doctorId, start, end)
         == Filtered(appts, AppointmentFilter(None, Some(doctorId), None, Some(start), Some(end)))
  {
  }

  /** An empty filter returns every stored appointment. */
  lemma EmptyFilterSelectsAll(appts: map<int, Appointment>)
    ensures forall k :: k in appts ==> appts[k] in Filtered(appts, NoFilter)
  {
    forall k | k in appts ensures appts[k] in Filtered(appts, NoFilter) {
      EmptyFilterMatchesAll(appts[k]);
    }
  }

  /** The appointments left when a doctor's delete cascades. */
  function WithoutDoctor(appts: map<int, Appointment>, doctorId: int): (r: map<int, Appointment>)
    ensures forall k :: k in r <==> k in appts && appts[k].doctorId != doctorId
    ensures forall k :: k in r ==> r[k] == appts[k]
  {
    map k | k in appts && appts[k].doctorId != doctorId :: appts[k]
  }

  /** The appointments left when a patient's delete cascades. */
  function WithoutPatient(appts: map<int, Appointment>, patientId: int): (r: map<int, Appointment>)
    ensures forall k :: k in r <==> k in appts && appts[k].patientId != patientId
    ensures forall k :: k in r ==> r[k] == appts[k]
  {
    map k | k in appts && appts[k].patientId != patientId :: appts[k]
  }

  class Database {
    var doctors: map<int, Doctor>
    var patients: map<int, Patient>
    var employees: map<int, Employee>
    var appointments: map<int, Appointment>
    var nextDoctorId: int
    var nextPatientId: int
    var nextEmployeeId: int
    var nextAppointmentId: int

    ghost predicate Valid()
      reads this
    {
      && 0 < nextDoctorId && 0 < nextPatientId && 0 < nextEmployeeId && 0 < nextAppointmentId
      && (forall k :: k in doctors ==> 0 < k < nextDoctorId && doctors[k].id == k)
      && (forall k :: k in patients ==> 0 < k < nextPatientId && patients[k].id == k)
      && (forall k :: k in employees ==> 0 < k < nextEmployeeId && employees[k].id == k)
      && (forall k :: k in appointments ==> 0 < k < nextAppointmentId && appointments[k].id == k)
      && (forall k :: k in doctors ==> !DoctorUsernameClash(doctors, k, doctors[k].username))
      && (forall k :: k in employees ==> !EmployeeUsernameClash(employees, k, employees[k].username))
      && (forall k :: k in patients ==> !KtpClash(patients, k, patients[k].noKtp))
    }

    /** Every appointment names a stored doctor and a stored patient (the
        foreign keys, kept by the cascades and by the booking rule). */
    ghost predicate Linked()
      reads this
    {
      forall k :: k in appointments ==> appointments[k].doctorId in doctors && appointments[k].patientId in patients
    }

    constructor ()
      ensures Valid()
      ensures doctors == map[] && patients == map[] && employees == map[] && appointments == map[]
    {
      doctors, patients, employees, appointments := map[], map[], map[], map[];
      nextDoctorId, nextPatientId, nextEmployeeId, nextAppointmentId := 1, 1, 1, 1;
    }
  }

  class AppointmentRepository {
    const db: Database

    constructor (db: Database)
      ensures this.db == db
    {
      this.db := db;
    }

    /** `get_all`: every stored row, and nothing else. */
    function GetAll(): (r: set<Appointment>)
      reads db
      ensures forall k :: k in db.appointments ==> db.appointments[k] in r
      ensures forall x :: x in r ==> exists k :: k in db.appointments && db.appointments[k] == x
    {
      set k | k in db.appointments :: db.appointments[k]
    }

    function GetById(id: int): (r: Option<Appointment>)
      reads db
      ensures r.Some? <==> id in db.appointments
      ensures r.Some? ==> r.value == db.appointments[id]
    {
      if id in db.appointments then Some(db.appointments[id]) else None
    }

    /** `create`: one new row built from the data, under a fresh key. */
    method Create(c: AppointmentCreate) returns (a: Appointment)
      requires db.Valid()
      modifies db
      ensures db.Valid()
      ensures a == NewAppointment(old(db.nextAppointmentId), c) && a.id !in old(db.appointments)
      ensures db.appointments == old(db.appointments)[a.id := a]
      ensures GetById(a.id) == Some(a)
      ensures db.nextAppointmentId == old(db.nextAppointmentId) + 1
      ensures db.doctors == old(db.doctors) && db.patients == old(db.patients) && db.employees == old(db.employees)
      ensures db.nextDoctorId == old(db.nextDoctorId) && db.nextPatientId == old(db.nextPatientId)
      ensures db.nextEmployeeId == old(db.nextEmployeeId)
    {
      a := NewAppointment(db.nextAppointmentId, c);
      db.appointments := db.appointments[a.id := a];
      db.nextAppointmentId := db.nextAppointmentId + 1;
    }

    /** `update`: a missing id gives None; otherwise each set key is written
        over the row, one `setattr` at a time. */
    method Update(id: int, u: AppointmentUpdate) returns (r: Option<Appointment>)
      requires db.Valid()
      modifies db
      ensures db.Valid()
      ensures id !in old(db.appointments) ==> r.None? && unchanged(db)
      ensures id in old(db.appointments) ==>
        && r == Some(ApplyUpdate(old(db.appointments)[id], u))
        && db.appointments == old(db.appointments)[id := r.value]
      ensures db.doctors == old(db.doctors) && db.patients == old(db.patients) && db.employees == old(db.employees)
      ensures db.nextAppointmentId == old(db.nextAppointmentId)
      ensures db.nextDoctorId == old(db.nextDoctorId) && db.nextPatientId == old(db.nextPatientId)
      ensures db.nextEmployeeId == old(db.nextEmployeeId)
    {
      if id !in db.appointments {
        return None;
      }
      var a := db.appointments[id];
      if u.status.Some? { a := a.(status := u.status.value); }
      if u.diagnose.Some? { a := a.(diagnose := u.diagnose.value); }
      if u.notes.Some? { a := a.(notes := u.notes.value); }
      if u.patientId.Some? { a := a.(patientId := u.patientId.value); }
      if u.doctorId.Some? { a := a.(doctorId := u.doctorId.value); }
      if u.datetime.Some? { a := a.(datetime := u.datetime.value); }
      db.appointments := db.appointments[id := a];
      r := Some(a);
    }

    /** `delete`: removes the row and reports whether there was one. */
    method Delete(id: int) returns (existed: bool)
      requires db.Valid()
      modifies db
      ensures db.Valid()
      ensures old(db.Linked()) ==> db.Linked()
      ensures existed <==> id in old(db.appointments)
      ensures db.appointments == old(db.appointments) - {id}
      ensures GetById(id).None?
      ensures db.doctors == old(db.doctors) && db.patients == old(db.patients) && db.employees == old(db.employees)
      ensures db.nextAppointmentId == old(db.nextAppointmentId)
      ensures db.nextDoctorId == old(db.nextDoctorId) && db.nextPatientId == old(db.nextPatientId)
      ensures db.nextEmployeeId == old(db.nextEmployeeId)
    {
      existed := id in db.appointments;
      if existed {
        db.appointments := db.appointments - {id};
      }
    }

    /** `get_doctor_appointments`: the doctor's rows in `[start, end)`. */
    function GetDoctorAppointments(doctorId: int, start: int, end: int): (r: set<Appointment>)
      reads db
      ensures forall a :: a in r ==> a.doctorId == doctorId && start <= a.datetime < end
      ensures forall k :: (k in db.appointments && db.appointments[k].doctorId == doctorId
                           && start <= db.appointments[k].datetime < end) ==> db.appointments[k] in r
    {
      DoctorDay(db.appointments, doctorId, start, end)
    }

    /** `filter_appointments`: the query is narrowed once per active filter. */
    method FilterAppointments(f: AppointmentFilter) returns (result: set<Appointment>)
      ensures result == Filtered(db.appointments, f)
    {
      var query := set k | k in db.appointments :: db.appointments[k];
      if ActiveId(f.patientId) {
        query := set a | a in query && a.patientId == f.patientId.value;
      }
      if ActiveId(f.doctorId) {
        query := set a | a in query && a.doctorId == f.doctorId.value;
      }
      if f.status.Some? {
        query := set a | a in query && a.status == f.status.value;
      }
      if f.startDate.Some? {
        query := set a | a in query && a.datetime >= f.startDate.value;
      }
      if f.endDate.Some? {
        query := set a | a in query && a.datetime < f.endDate.value;
      }
      result := query;
    }
  }

  class DoctorRepository {
    const db: Database

    constructor (db: Database)
      ensures this.db == db
    {
      this.db := db;
    }

    /** `get_all`: every stored row, and nothing else. */
    function GetAll(): (r: set<Doctor>)
      reads db
      ensures forall k :: k in db.doctors ==> db.doctors[k] in r
      ensures forall x :: x in r ==> exists k :: k in db.doctors && db.doctors[k] == x
    {
      set k | k in db.doctors :: db.doctors[k]
    }

    function GetById(id: int): (r: Option<Doctor>)
      reads db
      ensures r.Some? <==> id in db.doctors
      ensures r.Some? ==> r.value == db.doctors[id]
    {
      if id in db.doctors then Some(db.doctors[id]) else None
    }

    /** `create`: a new row, unless another doctor holds the username, in
        which case the commit fails and nothing is stored. */
    method Create(c: DoctorCreate) returns (r: Result<Doctor, Error>)
      requires db.Valid()
      modifies db
      ensures db.Valid()
      ensures old(db.Linked()) ==> db.Linked()
      ensures DoctorUsernameClash(old(db.doctors), old(db.nextDoctorId), c.username) ==>
        r == Failure(Integrity(UniqueFailed("doctor", "username"))) && unchanged(db)
      ensures !DoctorUsernameClash(old(db.doctors), old(db.nextDoctorId), c.username) ==>
        && r == Success(NewDoctor(old(db.nextDoctorId), c))
        && r.value.id !in old(db.doctors)
        && db.doctors == old(db.doctors)[r.value.id := r.value]
        && GetById(r.value.id) == Some(r.value)
        && db.appointments == old(db.appointments) && db.patients == old(db.patients)
        && db.employees == old(db.employees)
    {
      if DoctorUsernameClash(db.doctors, db.nextDoctorId, c.username) {
        return Failure(Integrity(UniqueFailed("doctor", "username")));
      }
      var d := NewDoctor(db.nextDoctorId, c);
      db.doctors := db.doctors[d.id := d];
      db.nextDoctorId := db.nextDoctorId + 1;
      r := Success(d);
    }

    /** `update`: None for a missing id; otherwise the given keys are written
        over the row, unless that makes the username clash. */
    method Update(id: int, f: DoctorFields) returns (r: Result<Option<Doctor>, Error>)
      requires db.Valid()
      modifies db
      ensures db.Valid()
      ensures old(db.Linked()) ==> db.Linked()
      ensures id !in old(db.doctors) ==> r == Success(None) && unchanged(db)
      ensures id in old(db.doctors) ==>
        var d := ApplyDoctorFields(old(db.doctors)[id], f);
        && (DoctorUsernameClash(old(db.doctors), id, d.username) ==>
              r == Failure(Integrity(UniqueFailed("doctor", "username"))) && unchanged(db))
        && (!DoctorUsernameClash(old(db.doctors), id, d.username) ==>
              r == Success(Some(d)) && db.doctors == old(db.doctors)[id := d])
      ensures db.appointments == old(db.appointments) && db.patients == old(db.patients)
      ensures db.employees == old(db.employees)
    {
      if id !in db.doctors {
        return Success(None);
      }
      var d := ApplyDoctorFields(db.doctors[id], f);
      if DoctorUsernameClash(db.doctors, id, d.username) {
        return Failure(Integrity(UniqueFailed("doctor", "username")));
      }
      db.doctors := db.doctors[id := d];
      r := Success(Some(d));
    }

    /** `delete`: removes the doctor and, by the relationship's cascade, every
        appointment that references it. */
    method Delete(id: int) returns (existed: bool)
      requires db.Valid()
      modifies db
      ensures db.Valid()
      ensures old(db.Linked()) ==> db.Linked()
      ensures existed <==> id in old(db.doctors)
      ensures db.doctors == old(db.doctors) - {id}
      ensures existed ==> db.appointments == WithoutDoctor(old(db.appointments), id)
      ensures !existed ==> unchanged(db)
      ensures db.patients == old(db.patients) && db.employees == old(db.employees)
      ensures db.nextAppointmentId == old(db.nextAppointmentId)
      ensures db.nextDoctorId == old(db.nextDoctorId) && db.nextPatientId == old(db.nextPatientId)
      ensures db.nextEmployeeId == old(db.nextEmployeeId)
    {
      existed := id in db.doctors;
      if existed {
        db.doctors := db.doctors - {id};
        db.appointments := WithoutDoctor(db.appointments, id);
      }
    }
  }

  class PatientRepository {
    const db: Database

    constructor (db: Database)
      ensures this.db == db
    {
      this.db := db;
    }

    /** `get_all`: every stored row, and nothing else. */
    function GetAll(): (r: set<Patient>)
      reads db
      ensures forall k :: k in db.patients ==> db.patients[k] in r
      ensures forall x :: x in r ==> exists k :: k in db.patients && db.patients[k] == x
    {
      set k | k in db.patients :: db.patients[k]
    }

    function GetById(id: int): (r: Option<Patient>)
      reads db
      ensures r.Some? <==> id in db.patients
      ensures r.Some? ==> r.value == db.patients[id]
    {
      if id in db.patients then Some(db.patients[id]) else None
    }

    method Create(c: PatientCreate) returns (r: Result<Patient, Error>)
      requires db.Valid()
      modifies db
      ensures db.Valid()
      ensures old(db.Linked()) ==> db.Linked()
      ensures KtpClash(old(db.patients), old(db.nextPatientId), c.noKtp) ==>
        r == Failure(Integrity(UniqueFailed("patient", "no_ktp"))) && unchanged(db)
      ensures !KtpClash(old(db.patients), old(db.nextPatientId), c.noKtp) ==>
        && r == Success(NewPatient(old(db.nextPatientId), c))
        && r.value.id !in old(db.patients)
        && db.patients == old(db.patients)[r.value.id := r.value]
        && GetById(r.value.id) == Some(r.value)
        && db.appointments == old(db.appointments) && db.doctors == old(db.doctors)
        && db.employees == old(db.employees)
    {
      if KtpClash(db.patients, db.nextPatientId, c.noKtp) {
        return Failure(Integrity(UniqueFailed("patient", "no_ktp")));
      }
      var p := NewPatient(db.nextPatientId, c);
      db.patients := db.patients[p.id := p];
      db.nextPatientId := db.nextPatientId + 1;
      r := Success(p);
    }

    method Update(id: int, f: PatientFields) returns (r: Result<Option<Patient>, Error>)
      requires db.Valid()
      modifies db
      ensures db.Valid()
      ensures old(db.Linked()) ==> db.Linked()
      ensures id !in old(db.patients) ==> r == Success(None) && unchanged(db)
      ensures id in old(db.patients) ==>
        var p := ApplyPatientFields(old(db.patients)[id], f);
        && (KtpClash(old(db.patients), id, p.noKtp) ==>
              r == Failure(Integrity(UniqueFailed("patient", "no_ktp"))) && unchanged(db))
        && (!KtpClash(old(db.patients), id, p.noKtp) ==>
              r == Success(Some(p)) && db.patients == old(db.patients)[id := p])
      ensures db.appointments == old(db.appointments) && db.doctors == old(db.doctors)
      ensures db.employees == old(db.employees)
    {
      if id !in db.patients {
        return Success(None);
      }
      var p := ApplyPatientFields(db.patients[id], f);
      if KtpClash(db.patients, id, p.noKtp) {
        return Failure(Integrity(UniqueFailed("patient", "no_ktp")));
      }
      db.patients := db.patients[id := p];
      r := Success(Some(p));
    }

    /** `delete`: removes the patient and, by cascade, its appointments. */
    method Delete(id: int) returns (existed: bool)
      requires db.Valid()
      modifies db
      ensures db.Valid()
      ensures old(db.Linked()) ==> db.Linked()
      ensures existed <==> id in old(db.patients)
      ensures db.patients == old(db.patients) - {id}
      ensures existed ==> db.appointments == WithoutPatient(old(db.appointments), id)
      ensures !existed ==> unchanged(db)
      ensures db.doctors == old(db.doctors) && db.employees == old(db.employees)
      ensures db.nextAppointmentId == old(db.nextAppointmentId)
      ensures db.nextDoctorId == old(db.nextDoctorId) && db.nextPatientId == old(db.nextPatientId)
      ensures db.nextEmployeeId == old(db.nextEmployeeId)
    {
      existed := id in db.patients;
      if existed {
        db.patients := db.patients - {id};
        db.appointments := WithoutPatient(db.appointments, id);
      }
    }
  }

  class EmployeeRepository {
    const db: Database

    constructor (db: Database)
      ensures this.db == db
    {
      this.db := db;
    }

    /** `get_all`: every stored row, and nothing else. */
    function GetAll(): (r: set<Employee>)
      reads db
      ensures forall k :: k in db.employees ==> db.employees[k] in r
      ensures forall x :: x in r ==> exists k :: k in db.employees && db.employees[k] == x
    {
      set k | k in db.employees :: db.employees[k]
    }

    function GetById(id: int): (r: Option<Employee>)
      reads db
      ensures r.Some? <==> id in db.employees
      ensures r.Some? ==> r.value == db.employees[id]
    {
      if id in db.employees then Some(db.employees[id]) else None
    }

    method Create(c: EmployeeCreate) returns (r: Result<Employee, Error>)
      requires db.Valid()
      modifies db
      ensures db.Valid()
      ensures old(db.Linked()) ==> db.Linked()
      ensures EmployeeUsernameClash(old(db.employees), old(db.nextEmployeeId), c.username) ==>
        r == Failure(Integrity(UniqueFailed("employee", "username"))) && unchanged(db)
      ensures !EmployeeUsernameClash(old(db.employees), old(db.nextEmployeeId), c.username) ==>
        && r == Success(NewEmployee(old(db.nextEmployeeId), c))
        && r.value.id !in old(db.employees)
        && db.employees == old(db.employees)[r.value.id := r.value]
        && GetById(r.value.id) == Some(r.value)
        && db.appointments == old(db.appointments) && db.doctors == old(db.doctors)
        && db.patients == old(db.patients)
    {
      if EmployeeUsernameClash(db.employees, db.nextEmployeeId, c.username) {
        return Failure(Integrity(UniqueFailed("employee", "username")));
      }
      var e := NewEmployee(db.nextEmployeeId, c);
      db.employees := db.employees[e.id := e];
      db.nextEmployeeId := db.nextEmployeeId + 1;
      r := Success(e);
    }

    method Update(id: int, f: PersonFields) returns (r: Result<Option<Employee>, Error>)
      requires db.Valid()
      modifies db
      ensures db.Valid()
      ensures old(db.Linked()) ==> db.Linked()
      ensures id !in old(db.employees) ==> r == Success(None) && unchanged(db)
      ensures id in old(db.employees) ==>
        var e := ApplyEmployeeFields(old(db.employees)[id], f);
        && (EmployeeUsernameClash(old(db.employees), id, e.username) ==>
              r == Failure(Integrity(UniqueFailed("employee", "username"))) && unchanged(db))
        && (!EmployeeUsernameClash(old(db.employees), id, e.username) ==>
              r == Success(Some(e)) && db.employees == old(db.employees)[id := e])
      ensures db.appointments == old(db.appointments) && db.doctors == old(db.doctors)
      ensures db.patients == old(db.patients)
    {
      if id !in db.employees {
        return Success(None);
      }
      var e := ApplyEmployeeFields(db.employees[id], f);
      if EmployeeUsernameClash(db.employees, id, e.username) {
        return Failure(Integrity(UniqueFailed("employee", "username")));
      }
      db.employees := db.employees[id := e];
      r := Success(Some(e));
    }

    method Delete(id: int) returns (existed: bool)
      requires db.Valid()
      modifies db
      ensures db.Valid()
      ensures old(db.Linked()) ==> db.Linked()
      ensures existed <==> id in old(db.employees)
      ensures db.employees == old(db.employees) - {id}
      ensures !existed ==> unchanged(db)
      ensures db.appointments == old(db.appointments) && db.doctors == old(db.doctors)
      ensures db.patients == old(db.patients)
      ensures db.nextAppointmentId == old(db.nextAppointmentId)
      ensures db.nextDoctorId == old(db.nextDoctorId) && db.nextPatientId == old(db.nextPatientId)
      ensures db.nextEmployeeId == old(db.nextEmployeeId)
    {
      existed := id in db.employees;
      if existed {
        db.employees := db.employees - {id};
      }
    }

    /** `get_by_username`: a scan for the row holding exactly this username. */
    method GetByUsername(username: string) returns (r: Option<Employee>)
      requires db.Valid()
      ensures r.Some? ==> r.value.id in db.employees && db.employees[r.value.id] == r.value
                          && r.value.username == username
      ensures r.Some? ==> forall k :: k in db.employees && db.employees[k].username == username ==> k == r.value.id
      ensures r.None? <==> forall k :: k in db.employees ==> db.employees[k].username != username
    {
      var keys := db.employees.Keys;
      while exists k :: k in keys
        invariant keys <= db.employees.Keys
        invariant forall k :: k in db.employees && k !in keys ==> db.employees[k].username != username
        decreases |keys|
      {
        var k :| k in keys;
        if db.employees[k].username == username {
          return Some(db.employees[k]);
        }
        keys := keys - {k};
      }
      r := None;
    }
  }
}
