/** The booking rule of `AppointmentService._validate_appointment`
    (app/services/appointment.py), stated over the tables it reads: the
    doctor and the patient must exist, the time of day must fall in the
    doctor's working hours, and no other appointment of that doctor inside the
    same day's working window may lie less than thirty minutes away. */
module Admission {
  import opened Results
  import opened Text
  import opened Clock
  import opened Errors
  import opened People
  import opened AppointmentModel
  import opened AppointmentSchemas
  import opened Store

  /** The data validated: the id is None on create (`model_dump()` has no
      id) and the record's own id on update. */
  datatype Candidate = Candidate(id: Option<int>, doctorId: int, patientId: int, datetime: int)

  /** `timedelta(minutes=30)` in seconds. */
  const MinSpacing := 1800

  const OutsideHoursMsg := "Appointment time is outside of doctor's working hours"
  const BookedMsg := "Doctor is already booked at this time"

  function DoctorNotFound(doctorId: int): Error
  {
    ResourceNotFound(NotFoundMsg("Doctor", doctorId), "appointment/doctor-not-found")
  }

  function PatientNotFound(patientId: int): Error
  {
    ResourceNotFound(NotFoundMsg("Patient", patientId), "appointment/patient-not-found")
  }

  /** `abs(a - b)` on datetimes. */
  function Distance(a: int, b: int): nat
  {
    if a >= b then a - b else b - a
  }

  /** The loop's test: a different record (any record when the candidate has
      no id) less than thirty minutes away. */
  predicate TooClose(x: Appointment, c: Candidate)
  {
    (c.id.None? || x.id != c.id.value) && Distance(x.datetime, c.datetime) < MinSpacing
  }

  predicate InHours(d: Doctor, dt: int)
  {
    d.workStart <= TimeOf(dt) < d.workEnd
  }

  /** The appointments the rule compares against: the doctor's, inside the
      working window of the candidate's day. */
  function Window(d: Doctor, appts: map<int, Appointment>, dt: int): set<Appointment>
  {
    DoctorDay(appts, d.id, Combine(DateOf(dt), d.workStart), Combine(DateOf(dt), d.workEnd))
  }

  /** The rule, checks in the source's order; the first that fails decides
      the error. */
  function Admit(doctors: map<int, Doctor>, patients: map<int, Patient>,
                 appts: map<int, Appointment>, c: Candidate): Outcome<Error>
  {
    if c.doctorId !in doctors then Fail(DoctorNotFound(c.doctorId))
    else if c.patientId !in patients then Fail(PatientNotFound(c.patientId))
    else if !InHours(doctors[c.doctorId], c.datetime) then Fail(Validation(OutsideHoursMsg))
    else if exists x | x in Window(doctors[c.doctorId], appts, c.datetime) :: TooClose(x, c)
    then Fail(Validation(BookedMsg))
    else Pass
  }

  /** Every table row is stored under its own id. */
  ghost predicate KeyedDoctors(doctors: map<int, Doctor>)
  {
    forall k :: k in doctors ==> doctors[k].id == k
  }

  ghost predicate KeyedAppointments(appts: map<int, Appointment>)
  {
    forall k :: k in appts ==> appts[k].id == k
  }

  /** Two stored appointments the rule sets against each other: same doctor,
      same day, both inside that doctor's working hours. */
  ghost predicate Competing(doctors: map<int, Doctor>, x: Appointment, y: Appointment)
  {
    && x.doctorId == y.doctorId && x.doctorId in doctors
    && DateOf(x.datetime) == DateOf(y.datetime)
    && InHours(doctors[x.doctorId], x.datetime) && InHours(doctors[x.doctorId], y.datetime)
  }

  /** The schedule invariant the rule maintains. */
  ghost predicate DaySpaced(doctors: map<int, Doctor>, appts: map<int, Appointment>)
  {
    forall i, j :: i in appts && j in appts && i != j && Competing(doctors, appts[i], appts[j])
      ==> Distance(appts[i].datetime, appts[j].datetime) >= MinSpacing
  }

  /** The window holds exactly the doctor's appointments on the same day and
      inside the working hours. */
  lemma WindowMembers(d: Doctor, appts: map<int, Appointment>, dt: int, k: int)
    requires k in appts
    ensures appts[k] in Window(d, appts, dt) <==>
      appts[k].doctorId == d.id && DateOf(appts[k].datetime) == DateOf(dt) && InHours(d, appts[k].datetime)
  {
    InDayWindow(DateOf(dt), d.workStart, d.workEnd, appts[k].datetime);
  }

  /** Reference statement of the rule, both directions: a candidate passes
      exactly when doctor and patient exist, its time is in hours, and every
      other appointment of that doctor on that day and in hours is at least
      thirty minutes away. */
  lemma {:induction false} AdmitIff(doctors: map<int, Doctor>, patients: map<int, Patient>,
                                    appts: map<int, Appointment>, c: Candidate)
    requires KeyedDoctors(doctors)
    ensures Admit(doctors, patients, appts, c) == Pass <==>
      && c.doctorId in doctors && c.patientId in patients
      && InHours(doctors[c.doctorId], c.datetime)
      && (forall k :: k in appts && appts[k].doctorId == c.doctorId
                      && DateOf(appts[k].datetime) == DateOf(c.datetime)
                      && InHours(doctors[c.doctorId], appts[k].datetime)
                      ==> !TooClose(appts[k], c))
  {
    if c.doctorId in doctors && c.patientId in patients && InHours(doctors[c.doctorId], c.datetime) {
      var d := doctors[c.doctorId];
      var w := Window(d, appts, c.datetime);
      forall k | k in appts
        ensures appts[k] in w <==> appts[k].doctorId == c.doctorId && DateOf(appts[k].datetime) == DateOf(c.datetime)
                                   && InHours(d, appts[k].datetime)
      {
        WindowMembers(d, appts, c.datetime, k);
      }
    }
  }

  /** A missing doctor is reported before anything else is looked at. */
  lemma DoctorCheckedFirst(doctors: map<int, Doctor>, patients: map<int, Patient>,
                           appts: map<int, Appointment>, c: Candidate)
    requires c.doctorId !in doctors
    ensures Admit(doctors, patients, appts, c).Fail?
    ensures Admit(doctors, patients, appts, c).error.errCode == "appointment/doctor-not-found"
  {
  }

  /** Working hours are start-inclusive, end-exclusive: a doctor whose end is
      not after the start can take no appointment at all. */
  lemma InvertedHoursRejectAll(doctors: map<int, Doctor>, patients: map<int, Patient>,
                               appts: map<int, Appointment>, c: Candidate)
    requires c.doctorId in doctors && c.patientId in patients
    requires doctors[c.doctorId].workEnd <= doctors[c.doctorId].workStart
    ensures Admit(doctors, patients, appts, c) == Fail(Validation(OutsideHoursMsg))
  {
  }

  /** An appointment exactly thirty minutes away does not block. */
  lemma HalfHourApartIsFree(x: Appointment, c: Candidate)
    requires Distance(x.datetime, c.datetime) == MinSpacing
    ensures !TooClose(x, c)
  {
  }

  /** On update, the record never conflicts with itself. */
  lemma OwnRecordNeverBlocks(x: Appointment, c: Candidate)
    requires c.id == Some(x.id)
    ensures !TooClose(x, c)
  {
  }

  /** Status plays no part: a cancelled or finished appointment still holds
      its slot. */
  lemma {:induction false} StatusIgnored(doctors: map<int, Doctor>, patients: map<int, Patient>,
                                         appts: map<int, Appointment>, k: int, s: Status, c: Candidate)
    requires k in appts
    ensures Admit(doctors, patients, appts[k := appts[k].(status := s)], c) == Admit(doctors, patients, appts, c)
  {
    var appts' := appts[k := appts[k].(status := s)];
    if c.doctorId in doctors && c.patientId in patients && InHours(doctors[c.doctorId], c.datetime) {
      var d := doctors[c.doctorId];
      var w, w' := Window(d, appts, c.datetime), Window(d, appts', c.datetime);
      if exists x | x in w :: TooClose(x, c) {
        var x :| x in w && TooClose(x, c);
        var j :| j in appts && appts[j] == x;
        assert appts'[j] in w' && TooClose(appts'[j], c);
      }
      if exists x | x in w' :: TooClose(x, c) {
        var x :| x in w' && TooClose(x, c);
        var j :| j in appts' && appts'[j] == x;
        assert appts[j] in w && TooClose(appts[j], c);
      }
    }
  }

  /** The day window is a boundary of the rule, not only a narrowing of the
      query: a doctor working the whole day, booked at 23:50, can be booked
      again at 00:10 the next day, twenty minutes later. */
  lemma CrossMidnightNotCompared()
    ensures var d := Doctor(1, "dr", Gender("male"), 0, "dr", "pw", 0, 86399);
            var p := Patient(1, "pat", Gender("male"), 0, "1", "addr", None, None);
            var x := Appointment(1, 1, 1, 86400 - 600, InQueue, None, None);
            var c := Candidate(None, 1, 1, 86400 + 600);
            && Distance(x.datetime, c.datetime) < MinSpacing
            && Admit(map[1 := d], map[1 := p], map[1 := x], c) == Pass
  {
    var d := Doctor(1, "dr", Gender("male"), 0, "dr", "pw", 0, 86399);
    var x := Appointment(1, 1, 1, 86400 - 600, InQueue, None, None);
    var c := Candidate(None, 1, 1, 86400 + 600);
    WindowMembers(d, map[1 := x], c.datetime, 1);
    assert Window(d, map[1 := x], c.datetime) == {};
  }

  /** Admitting a new appointment keeps the schedule spaced. */
  lemma {:induction false} CreateKeepsSpacing(doctors: map<int, Doctor>, patients: map<int, Patient>,
                                              appts: map<int, Appointment>, a: Appointment)
    requires KeyedDoctors(doctors) && DaySpaced(doctors, appts)
    requires a.id !in appts
    requires Admit(doctors, patients, appts, Candidate(None, a.doctorId, a.patientId, a.datetime)) == Pass
    ensures DaySpaced(doctors, appts[a.id := a])
  {
    var c := Candidate(None, a.doctorId, a.patientId, a.datetime);
    AdmitIff(doctors, patients, appts, c);
    var appts' := appts[a.id := a];
    forall i, j | i in appts' && j in appts' && i != j && Competing(doctors, appts'[i], appts'[j])
      ensures Distance(appts'[i].datetime, appts'[j].datetime) >= MinSpacing
    {
      if i == a.id {
        assert !TooClose(appts[j], c);
      } else if j == a.id {
        assert !TooClose(appts[i], c);
      }
    }
  }

  /** Admitting an update of a stored appointment keeps the schedule spaced. */
  lemma {:induction false} MoveKeepsSpacing(doctors: map<int, Doctor>, patients: map<int, Patient>,
                                            appts: map<int, Appointment>, a: Appointment)
    requires KeyedDoctors(doctors) && KeyedAppointments(appts) && DaySpaced(doctors, appts)
    requires a.id in appts
    requires Admit(doctors, patients, appts, Candidate(Some(a.id), a.doctorId, a.patientId, a.datetime)) == Pass
    ensures DaySpaced(doctors, appts[a.id := a])
  {
    var c := Candidate(Some(a.id), a.doctorId, a.patientId, a.datetime);
    AdmitIff(doctors, patients, appts, c);
    var appts' := appts[a.id := a];
    forall i, j | i in appts' && j in appts' && i != j && Competing(doctors, appts'[i], appts'[j])
      ensures Distance(appts'[i].datetime, appts'[j].datetime) >= MinSpacing
    {
      if i == a.id {
        assert !TooClose(appts[j], c);
      } else if j == a.id {
        assert !TooClose(appts[i], c);
      }
    }
  }

  /** An update that leaves doctor, patient and datetime alone keeps the
      schedule spaced without any check. */
  lemma {:induction false} RetouchKeepsSpacing(doctors: map<int, Doctor>, appts: map<int, Appointment>, a: Appointment)
    requires DaySpaced(doctors, appts)
    requires a.id in appts && a.doctorId == appts[a.id].doctorId && a.datetime == appts[a.id].datetime
    ensures DaySpaced(doctors, appts[a.id := a])
  {
    var appts' := appts[a.id := a];
    forall i, j | i in appts' && j in appts' && i != j && Competing(doctors, appts'[i], appts'[j])
      ensures Distance(appts'[i].datetime, appts'[j].datetime) >= MinSpacing
    {
      assert Competing(doctors, appts[i], appts[j]);
    }
  }
}
