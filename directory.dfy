/** The patient, doctor and employee services (app/services/patient.py,
    doctor.py, employee.py). Each hands the request to its repository and
    turns the store's unique-constraint failure into the application's own
    error; any other failure is re-raised as it is. Password hashing is a
    parameter of the services that hash. */
module Directory {
  import opened Results
  import opened Text
  import opened Errors
  import opened People
  import opened PersonSchemas
  import opened Store

  /** The services' test on the driver's message:
      `'unique constraint' in str(e.orig).lower() and word in ...`. */
  predicate UniqueViolationOn(orig: string, word: string)
  {
    Contains(Lower(orig), "unique constraint") && Contains(Lower(orig), word)
  }

  /** An optional request field inside an f-string: an unset field is `None`. */
  function Rendered(v: Option<string>): string
  {
    if v.Some? then v.value else "None"
  }

  function DuplicateKtpMsg(noKtp: string): string
  {
    "A patient with KTP number " + noKtp + " already exists."
  }

  /** The patient service's `except IntegrityError` clause. */
  function PatientConflict(e: Error, noKtp: string): Error
  {
    if e.Integrity? && UniqueViolationOn(e.orig, "ktp") then DuplicateResource(DuplicateKtpMsg(noKtp)) else e
  }

  /** The doctor and employee services' `except IntegrityError` clause. */
  function UsernameConflict(e: Error, entityName: string, username: string): Error
  {
    if e.Integrity? && UniqueViolationOn(e.orig, "username") then UsernameAlreadyExistsError(entityName, username) else e
  }

  /** `sub` occurs in the lower-cased `s` at `i` when `s` holds there a word
      that lower-cases to it. */
  lemma {:induction false} LowerOccurs(s: string, i: int, word: string, sub: string)
    requires 0 <= i && i + |word| <= |s| && s[i..i + |word|] == word
    requires |word| == |sub| && forall j :: 0 <= j < |word| ==> LowerChar(word[j]) == sub[j]
    ensures OccursAt(Lower(s), sub, i)
  {
    forall j | 0 <= j < |sub| ensures Lower(s)[i..i + |sub|][j] == sub[j] {
      assert s[i + j] == word[j];
    }
  }

  /** A word with a letter the lower-cased `s` lacks does not occur in it. */
  lemma {:induction false} AbsentLetter(s: string, sub: string, j: int)
    requires 0 <= j < |sub| && IsLower(sub[j])
    requires forall i :: 0 <= i < |s| ==> s[i] != sub[j] && LowerChar(s[i]) != sub[j]
    ensures !Contains(Lower(s), sub)
  {
    forall i | 0 <= i <= |s| - |sub| ensures !OccursAt(Lower(s), sub, i) {
      assert Lower(s)[i..i + |sub|][j] == LowerChar(s[i + j]);
    }
  }

  /** The store's message for a unique violation on a column ending in a
      lower-case `word` passes the services' test for that word. */
  lemma {:induction false} UniqueFailedMentions(table: string, column: string, word: string)
    requires |word| <= |column| && column[|column| - |word|..] == word
    requires forall j :: 0 <= j < |word| ==> !IsUpper(word[j])
    ensures UniqueViolationOn(UniqueFailed(table, column), word)
  {
    var s := UniqueFailed(table, column);
    assert s[..17] == "UNIQUE constraint";
    LowerOccurs(s, 0, "UNIQUE constraint", "unique constraint");
    assert s[|s| - |word|..] == word;
    LowerOccurs(s, |s| - |word|, word, word);
  }

  /** The store's KTP violation is recognised as a duplicate patient. */
  lemma KtpViolationRecognised(noKtp: string)
    ensures PatientConflict(Integrity(UniqueFailed("patient", "no_ktp")), noKtp)
         == DuplicateResource(DuplicateKtpMsg(noKtp))
  {
    UniqueFailedMentions("patient", "no_ktp", "ktp");
  }

  /** The store's username violation, on either table, is recognised as a
      taken username. */
  lemma UsernameViolationRecognised(table: string, entityName: string, username: string)
    ensures UsernameConflict(Integrity(UniqueFailed(table, "username")), entityName, username)
         == UsernameAlreadyExistsError(entityName, username)
  {
    UniqueFailedMentions(table, "username", "username");
  }

  /** Any other integrity failure is re-raised untouched: SQLite's NOT NULL,
      CHECK and FOREIGN KEY messages have no letter q, so they cannot say
      "unique constraint". */
  lemma OtherIntegrityReraised(orig: string, noKtp: string, username: string)
    requires forall i :: 0 <= i < |orig| ==> orig[i] != 'q' && orig[i] != 'Q'
    ensures PatientConflict(Integrity(orig), noKtp) == Integrity(orig)
    ensures UsernameConflict(Integrity(orig), "doctor", username) == Integrity(orig)
    ensures UsernameConflict(Integrity(orig), "employee", username) == Integrity(orig)
  {
    AbsentLetter(orig, "unique constraint", 3);
  }

  class PatientService {
    const repo: PatientRepository

    constructor (repo: PatientRepository)
      ensures this.repo == repo
    {
      this.repo := repo;
    }

    /** `create_patient`: fails exactly when the KTP number is taken, and
        then with the duplicate-patient error naming it. */
    method CreatePatient(c: PatientCreate) returns (r: Result<Patient, Error>)
      requires repo.db.Valid()
      modifies repo.db
      ensures repo.db.Valid()
      ensures old(repo.db.Linked()) ==> repo.db.Linked()
      ensures repo.db.doctors == old(repo.db.doctors)
      ensures repo.db.employees == old(repo.db.employees)
      ensures r.Failure? <==> KtpClash(old(repo.db.patients), old(repo.db.nextPatientId), c.noKtp)
      ensures r.Failure? ==> r.error == DuplicateResource(DuplicateKtpMsg(c.noKtp)) && unchanged(repo.db)
      ensures r.Success? ==>
        && r.value == NewPatient(old(repo.db.nextPatientId), c)
        && repo.db.patients == old(repo.db.patients)[r.value.id := r.value]
        && repo.db.appointments == old(repo.db.appointments)
    {
      var stored := repo.Create(c);
      assert repo.db.doctors == old(repo.db.doctors) && repo.db.employees == old(repo.db.employees);
      if stored.Failure? {
        KtpViolationRecognised(c.noKtp);
        return Failure(PatientConflict(stored.error, c.noKtp));
      }
      r := stored;
    }

    /** `get_all_patients`: every stored patient, and nothing else. */
    function GetAllPatients(): (r: set<Patient>)
      reads repo.db
      ensures forall k :: k in repo.db.patients ==> repo.db.patients[k] in r
      ensures forall x :: x in r ==> exists k :: k in repo.db.patients && repo.db.patients[k] == x
    {
      repo.GetAll()
    }

    function GetPatientById(id: int): (r: Option<Patient>)
      reads repo.db
      ensures r.Some? <==> id in repo.db.patients
      ensures r.Some? ==> r.value == repo.db.patients[id]
    {
      repo.GetById(id)
    }

    /** `update_patient`: a missing id gives None; a KTP number taken by
        another patient fails, and only a request that sets the KTP number
        can cause that. */
    method UpdatePatient(id: int, f: PatientFields) returns (r: Result<Option<Patient>, Error>)
      requires repo.db.Valid()
      modifies repo.db
      ensures repo.db.Valid()
      ensures old(repo.db.Linked()) ==> repo.db.Linked()
      ensures repo.db.doctors == old(repo.db.doctors)
      ensures repo.db.employees == old(repo.db.employees)
      ensures id !in old(repo.db.patients) ==> r == Success(None) && unchanged(repo.db)
      ensures id in old(repo.db.patients) ==>
        var p := ApplyPatientFields(old(repo.db.patients)[id], f);
        && (r.Failure? <==> KtpClash(old(repo.db.patients), id, p.noKtp))
        && (r.Failure? ==> f.noKtp.Some? && r.error == DuplicateResource(DuplicateKtpMsg(f.noKtp.value))
                           && unchanged(repo.db))
        && (r.Success? ==> r.value == Some(p) && repo.db.patients == old(repo.db.patients)[id := p])
      ensures repo.db.appointments == old(repo.db.appointments)
    {
      var stored := repo.Update(id, f);
      if stored.Failure? {
        KtpViolationRecognised(Rendered(f.noKtp));
        return Failure(PatientConflict(stored.error, Rendered(f.noKtp)));
      }
      r := stored;
    }

    /** `delete_patient`: the patient goes, and its appointments with it. */
    method DeletePatient(id: int) returns (existed: bool)
      requires repo.db.Valid()
      modifies repo.db
      ensures repo.db.Valid()
      ensures old(repo.db.Linked()) ==> repo.db.Linked()
      ensures existed <==> id in old(repo.db.patients)
      ensures repo.db.patients == old(repo.db.patients) - {id}
      ensures forall k :: k in repo.db.appointments ==> repo.db.appointments[k].patientId != id || !existed
      ensures existed ==> repo.db.appointments == WithoutPatient(old(repo.db.appointments), id)
      ensures !existed ==> unchanged(repo.db)
      ensures repo.db.doctors == old(repo.db.doctors)
      ensures repo.db.employees == old(repo.db.employees)
    {
      existed := repo.Delete(id);
    }
  }

  class DoctorService {
    const repo: DoctorRepository
    /** `generate_password_hash`. */
    const hash: string -> string

    constructor (repo: DoctorRepository, hash: string -> string)
      ensures this.repo == repo && this.hash == hash
    {
      this.repo := repo;
      this.hash := hash;
    }

    /** `create_doctor`: stores the hashed password; fails exactly when the
        username is taken, with the error naming it. */
    method CreateDoctor(c: DoctorCreate) returns (r: Result<Doctor, Error>)
      requires repo.db.Valid()
      modifies repo.db
      ensures repo.db.Valid()
      ensures old(repo.db.Linked()) ==> repo.db.Linked()
      ensures repo.db.patients == old(repo.db.patients)
      ensures repo.db.employees == old(repo.db.employees)
      ensures r.Failure? <==> DoctorUsernameClash(old(repo.db.doctors), old(repo.db.nextDoctorId), c.username)
      ensures r.Failure? ==> r.error == UsernameAlreadyExistsError("doctor", c.username) && unchanged(repo.db)
      ensures r.Success? ==>
        && r.value == NewDoctor(old(repo.db.nextDoctorId), c.(password := hash(c.password)))
        && r.value.password == hash(c.password)
        && repo.db.doctors == old(repo.db.doctors)[r.value.id := r.value]
        && repo.db.appointments == old(repo.db.appointments)
    {
      var stored := repo.Create(c.(password := hash(c.password)));
      assert repo.db.patients == old(repo.db.patients) && repo.db.employees == old(repo.db.employees);
      if stored.Failure? {
        UsernameViolationRecognised("doctor", "doctor", c.username);
        return Failure(UsernameConflict(stored.error, "doctor", c.username));
      }
      r := stored;
    }

    /** `get_all_doctors`: every stored doctor, and nothing else. */
    function GetAllDoctors(): (r: set<Doctor>)
      reads repo.db
      ensures forall k :: k in repo.db.doctors ==> repo.db.doctors[k] in r
      ensures forall x :: x in r ==> exists k :: k in repo.db.doctors && repo.db.doctors[k] == x
    {
      repo.GetAll()
    }

    function GetDoctorById(id: int): (r: Option<Doctor>)
      reads repo.db
      ensures r.Some? <==> id in repo.db.doctors
      ensures r.Some? ==> r.value == repo.db.doctors[id]
    {
      repo.GetById(id)
    }

    /** `update_doctor`: the set keys are written as given, the password
        included, which is stored without hashing. */
    method UpdateDoctor(id: int, f: DoctorFields) returns (r: Result<Option<Doctor>, Error>)
      requires repo.db.Valid()
      modifies repo.db
      ensures repo.db.Valid()
      ensures old(repo.db.Linked()) ==> repo.db.Linked()
      ensures repo.db.patients == old(repo.db.patients)
      ensures repo.db.employees == old(repo.db.employees)
      ensures id !in old(repo.db.doctors) ==> r == Success(None) && unchanged(repo.db)
      ensures id in old(repo.db.doctors) ==>
        var d := ApplyDoctorFields(old(repo.db.doctors)[id], f);
        && (r.Failure? <==> DoctorUsernameClash(old(repo.db.doctors), id, d.username))
        && (r.Failure? ==> f.person.username.Some?
                           && r.error == UsernameAlreadyExistsError("doctor", f.person.username.value)
                           && unchanged(repo.db))
        && (r.Success? ==> r.value == Some(d) && repo.db.doctors == old(repo.db.doctors)[id := d])
      ensures r.Success? && r.value.Some? && f.person.password.Some? ==> r.value.value.password == f.person.password.value
      ensures repo.db.appointments == old(repo.db.appointments)
    {
      var stored := repo.Update(id, f);
      if stored.Failure? {
        UsernameViolationRecognised("doctor", "doctor", Rendered(f.person.username));
        return Failure(UsernameConflict(stored.error, "doctor", Rendered(f.person.username)));
      }
      r := stored;
    }

    /** `delete_doctor`: the doctor goes, and its appointments with it. */
    method DeleteDoctor(id: int) returns (existed: bool)
      requires repo.db.Valid()
      modifies repo.db
      ensures repo.db.Valid()
      ensures old(repo.db.Linked()) ==> repo.db.Linked()
      ensures existed <==> id in old(repo.db.doctors)
      ensures repo.db.doctors == old(repo.db.doctors) - {id}
      ensures forall k :: k in repo.db.appointments ==> repo.db.appointments[k].doctorId != id || !existed
      ensures existed ==> repo.db.appointments == WithoutDoctor(old(repo.db.appointments), id)
      ensures !existed ==> unchanged(repo.db)
      ensures repo.db.patients == old(repo.db.patients)
      ensures repo.db.employees == old(repo.db.employees)
    {
      existed := repo.Delete(id);
    }
  }

  class EmployeeService {
    const repo: EmployeeRepository
    const hash: string -> string

    constructor (repo: EmployeeRepository, hash: string -> string)
      ensures this.repo == repo && this.hash == hash
    {
      this.repo := repo;
      this.hash := hash;
    }

    method CreateEmployee(c: EmployeeCreate) returns (r: Result<Employee, Error>)
      requires repo.db.Valid()
      modifies repo.db
      ensures repo.db.Valid()
      ensures old(repo.db.Linked()) ==> repo.db.Linked()
      ensures repo.db.doctors == old(repo.db.doctors)
      ensures repo.db.patients == old(repo.db.patients)
      ensures repo.db.appointments == old(repo.db.appointments)
      ensures r.Failure? <==> EmployeeUsernameClash(old(repo.db.employees), old(repo.db.nextEmployeeId), c.username)
      ensures r.Failure? ==> r.error == UsernameAlreadyExistsError("employee", c.username) && unchanged(repo.db)
      ensures r.Success? ==>
        && r.value == NewEmployee(old(repo.db.nextEmployeeId), c.(password := hash(c.password)))
        && r.value.password == hash(c.password)
        && repo.db.employees == old(repo.db.employees)[r.value.id := r.value]
    {
      var stored := repo.Create(c.(password := hash(c.password)));
      assert repo.db.doctors == old(repo.db.doctors) && repo.db.patients == old(repo.db.patients)
        && repo.db.appointments == old(repo.db.appointments);
      if stored.Failure? {
        UsernameViolationRecognised("employee", "employee", c.username);
        return Failure(UsernameConflict(stored.error, "employee", c.username));
      }
      r := stored;
    }

    /** `get_all_employees`: every stored employee, and nothing else. */
    function GetAllEmployees(): (r: set<Employee>)
      reads repo.db
      ensures forall k :: k in repo.db.employees ==> repo.db.employees[k] in r
      ensures forall x :: x in r ==> exists k :: k in repo.db.employees && repo.db.employees[k] == x
    {
      repo.GetAll()
    }

    function GetEmployeeById(id: int): (r: Option<Employee>)
      reads repo.db
      ensures r.Some? <==> id in repo.db.employees
      ensures r.Some? ==> r.value == repo.db.employees[id]
    {
      repo.GetById(id)
    }

    /** The update as the repository receives it: a set password hashed. */
    function Hashed(f: PersonFields): (g: PersonFields)
      ensures g.password.Some? <==> f.password.Some?
      ensures f.password.Some? ==> g.password.value == hash(f.password.value)
      ensures g.(password := f.password) == f
    {
      if f.password.Some? then f.(password := Some(hash(f.password.value))) else f
    }

    /** `update_employee`: like the doctor's, except that a new password is
        hashed before it is stored. */
    method UpdateEmployee(id: int, f: PersonFields) returns (r: Result<Option<Employee>, Error>)
      requires repo.db.Valid()
      modifies repo.db
      ensures repo.db.Valid()
      ensures old(repo.db.Linked()) ==> repo.db.Linked()
      ensures repo.db.doctors == old(repo.db.doctors)
      ensures repo.db.patients == old(repo.db.patients)
      ensures id !in old(repo.db.employees) ==> r == Success(None) && unchanged(repo.db)
      ensures id in old(repo.db.employees) ==>
        var e := ApplyEmployeeFields(old(repo.db.employees)[id], Hashed(f));
        && (r.Failure? <==> EmployeeUsernameClash(old(repo.db.employees), id, e.username))
        && (r.Failure? ==> f.username.Some?
                           && r.error == UsernameAlreadyExistsError("employee", f.username.value)
                           && unchanged(repo.db))
        && (r.Success? ==> r.value == Some(e) && repo.db.employees == old(repo.db.employees)[id := e])
      ensures r.Success? && r.value.Some? && f.password.Some? ==> r.value.value.password == hash(f.password.value)
      ensures repo.db.appointments == old(repo.db.appointments)
    {
      var stored := repo.Update(id, Hashed(f));
      if stored.Failure? {
        UsernameViolationRecognised("employee", "employee", Rendered(f.username));
        return Failure(UsernameConflict(stored.error, "employee", Rendered(f.username)));
      }
      r := stored;
    }

    method DeleteEmployee(id: int) returns (existed: bool)
      requires repo.db.Valid()
      modifies repo.db
      ensures repo.db.Valid()
      ensures old(repo.db.Linked()) ==> repo.db.Linked()
      ensures repo.db.doctors == old(repo.db.doctors)
      ensures repo.db.patients == old(repo.db.patients)
      ensures existed <==> id in old(repo.db.employees)
      ensures repo.db.employees == old(repo.db.employees) - {id}
      ensures repo.db.appointments == old(repo.db.appointments)
    {
      existed := repo.Delete(id);
    }
  }
}
