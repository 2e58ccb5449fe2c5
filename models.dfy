/** The JPA entities of the back end as values. Java null references are
    `None`; the stores in module Store hold these values by id. */
module Models {
  import opened Wrappers
  import opened Text
  import opened Times

  const StatusScheduled: int := 0
  const StatusCompleted: int := 1
  const StatusCancelled: int := 2

  /** An appointment: its doctor and patient are references by id. */
  datatype Appointment = Appointment(
    id: Option<nat>,
    doctor: Option<nat>,
    patient: Option<nat>,
    time: Option<LocalDateTime>,
    status: int)

  /** `new Appointment()`: nothing set, status Scheduled. */
  function EmptyAppointment(): (a: Appointment)
    ensures a.status == StatusScheduled && a.id.None? && a.doctor.None? && a.patient.None? && a.time.None?
  {
    Appointment(None, None, None, None, StatusScheduled)
  }

  /** `new Appointment(doctor, patient, appointmentTime)`: the three given,
      no id yet, status Scheduled. */
  function NewAppointment(doctor: nat, patient: nat, time: LocalDateTime): (a: Appointment)
    ensures a.status == StatusScheduled && a.id.None?
    ensures a.doctor == Some(doctor) && a.patient == Some(patient) && a.time == Some(time)
  {
    Appointment(None, Some(doctor), Some(patient), Some(time), StatusScheduled)
  }

  /** Appointment.getEndTime: one hour after the start, or null. */
  function EndTime(a: Appointment): (r: Option<LocalDateTime>)
    ensures r.Some? <==> a.time.Some?
    ensures r.Some? ==> r.value.EpochSecond() == a.time.value.EpochSecond() + 3600
  {
    if a.time.Some? then Some(PlusOneHour(a.time.value)) else None
  }

  /** Appointment.getAppointmentDate: the date part of the start, or null. */
  function AppointmentDate(a: Appointment): (r: Option<LocalDate>)
    ensures r.Some? <==> a.time.Some?
    ensures r.Some? ==> r.value == a.time.value.date
  {
    if a.time.Some? then Some(a.time.value.date) else None
  }

  /** Appointment.getAppointmentTimeOnly: the time-of-day part of the start,
      or null; with the date part it gives back the start. */
  function AppointmentTimeOnly(a: Appointment): (r: Option<LocalTime>)
    ensures r.Some? <==> a.time.Some?
    ensures r.Some? ==> LocalDateTime(AppointmentDate(a).value, r.value) == a.time.value
  {
    if a.time.Some? then Some(a.time.value.time) else None
  }

  /** The Bean Validation messages the Appointment entity's constraints
      produce when it is validated at `now` (JPA validates before persisting). */
  function AppointmentViolations(a: Appointment, now: LocalDateTime): (r: seq<string>)
    ensures r == [] <==> a.doctor.Some? && a.patient.Some? && a.time.Some? && IsBefore(now, a.time.value)
  {
    (if a.doctor.None? then ["Doctor is required"] else [])
    + (if a.patient.None? then ["Patient is required"] else [])
    + (if a.time.None? then ["Appointment time is required"]
       else if !IsBefore(now, a.time.value) then ["Appointment time must be in the future"]
       else [])
  }

  /** A doctor. Doctor.java is not part of this model: these are the fields
      the services read and write; the password is the one field whose null
      value a service tests for. */
  datatype Doctor = Doctor(
    id: Option<nat>,
    name: string,
    email: string,
    password: Option<string>,
    phone: string,
    specialty: string,
    availableTimes: seq<string>)

  datatype Patient = Patient(
    id: Option<nat>,
    name: Option<string>,
    email: Option<string>,
    password: Option<string>,
    phone: Option<string>,
    address: Option<string>)

  /** `new Patient(name, email, password, phone, address)`. */
  function NewPatient(name: string, email: string, password: string, phone: string, address: string): (p: Patient)
    ensures p.id.None?
    ensures p.name == Some(name) && p.email == Some(email) && p.password == Some(password)
    ensures p.phone == Some(phone) && p.address == Some(address)
  {
    Patient(None, Some(name), Some(email), Some(password), Some(phone), Some(address))
  }

  /** The pattern ^[0-9]{10}$. */
  predicate IsTenDigits(s: string) {
    |s| == 10 && AllDigits(s)
  }

  /** The Bean Validation messages of the Patient entity's constraints
      (the format check of @Email is not modelled); @Size counts UTF-16
      code units. */
  function PatientViolations(p: Patient): (r: seq<string>)
    ensures r == [] <==>
      && p.name.Some? && 3 <= Utf16Length(p.name.value) <= 100
      && p.email.Some?
      && p.password.Some? && Utf16Length(p.password.value) >= 6
      && p.phone.Some? && IsTenDigits(p.phone.value)
      && p.address.Some? && Utf16Length(p.address.value) <= 255
  {
    (if p.name.None? then ["Name is required"]
     else if !(3 <= Utf16Length(p.name.value) <= 100) then ["Name must be between 3 and 100 characters"] else [])
    + (if p.email.None? then ["Email is required"] else [])
    + (if p.password.None? then ["Password is required"]
       else if Utf16Length(p.password.value) < 6 then ["Password must be at least 6 characters"] else [])
    + (if p.phone.None? then ["Phone number is required"]
       else if !IsTenDigits(p.phone.value) then ["Phone number must be 10 digits"] else [])
    + (if p.address.None? then ["Address is required"]
       else if Utf16Length(p.address.value) > 255 then ["Address cannot exceed 255 characters"] else [])
  }

  /** An administrator, stored or received as a login body: Admin.java is
      not part of this model, so the fields are the two that AdminRepository
      and Service read, each possibly null. */
  datatype Admin = Admin(username: Option<string>, password: Option<string>)

  /** A prescription: Prescription.java is not part of this model, so the
      fields other than the appointment id are one opaque value. */
  datatype Prescription = Prescription(appointmentId: nat, details: string)

  /** The request body of a login: two plain fields without initialiser,
      so a body that leaves one out carries null there. */
  datatype Login = Login(email: Option<string>, password: Option<string>)
}
