/** The directory records: Doctor, Patient and Employee as their tables hold
    them (app/models). Gender is carried as an uninterpreted label. */
module People {
  import opened Results
  import opened Clock

  datatype Gender = Gender(tag: string)

  /** A doctor, with the daily working window `[workStart, workEnd)`. */
  datatype Doctor = Doctor(
    id: int,
    name: string,
    gender: Gender,
    birthdate: int,
    username: string,
    password: string,
    workStart: TimeOfDay,
    workEnd: TimeOfDay)

  /** A patient; the vaccine fields are nullable and never set by this API. */
  datatype Patient = Patient(
    id: int,
    name: string,
    gender: Gender,
    birthdate: int,
    noKtp: string,
    address: string,
    vaccineType: Option<string>,
    vaccineCount: Option<int>)

  /** An employee; `password` holds the stored hash. */
  datatype Employee = Employee(
    id: int,
    name: string,
    gender: Gender,
    birthdate: int,
    username: string,
    password: string)

  /** Declared column lengths of the patient and employee tables. */
  const NameColumnLength := 120
  const KtpColumnLength := 16
  const AddressColumnLength := 200
  const UsernameColumnLength := 32
  const PasswordColumnLength := 128
}
