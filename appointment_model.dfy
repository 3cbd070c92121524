/** The appointment record and its status (app/models/appointment.py). An
    appointment is a single point in time: it has no duration. */
module AppointmentModel {
  import opened Results

  datatype Status = InQueue | Done | Cancelled

  /** The enum's stored and serialised values. */
  function StatusName(s: Status): (n: string)
  {
    match s
    case InQueue => "IN_QUEUE"
    case Done => "DONE"
    case Cancelled => "CANCELLED"
  }

  /** `AppointmentStatus(n)`: only the three values name a status. */
  function ParseStatus(n: string): Option<Status>
  {
    if n == "IN_QUEUE" then Some(InQueue)
    else if n == "DONE" then Some(Done)
    else if n == "CANCELLED" then Some(Cancelled)
    else None
  }

  lemma StatusRoundTrip(s: Status, n: string)
    ensures ParseStatus(StatusName(s)) == Some(s)
    ensures ParseStatus(n).Some? ==> StatusName(ParseStatus(n).value) == n
  {
  }

  /** A stored appointment: patient, doctor and datetime are never null; the
      status defaults to IN_QUEUE when created; diagnose and notes may be
      null. */
  datatype Appointment = Appointment(
    id: int,
    patientId: int,
    doctorId: int,
    datetime: int,
    status: Status,
    diagnose: Option<string>,
    notes: Option<string>)
}
