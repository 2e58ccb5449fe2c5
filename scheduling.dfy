/** Properties that span several operations: what a booking does to the
    availability and to the next validation of the same slot, what a
    cancellation gives back, and that the tokens the logins issue pass the
    role check for the rest of their lifetime. */
module Scheduling {
  import opened Wrappers
  import opened Text
  import opened Times
  import opened Models
  import opened Database
  import opened Responses
  import opened AppointmentRepository
  import opened TokenService
  import opened AppointmentService
  import opened DoctorService
  import opened Service
  import DoctorController

  /** A slot label in the "HH:mm" shape the doctors' schedules use. */
  predicate IsHourMinuteLabel(s: string) {
    |s| == 5 && s[2] == ':' && AllDigits(s[..2]) && AllDigits(s[3..])
  }

  /** On an "HH:mm" slot the prefix test of validateAppointment and the
      equality test of getDoctorAvailability agree. */
  lemma PrefixIsEqualityOnHourMinuteSlots(s: string, t: LocalTime)
    requires IsHourMinuteLabel(s)
    ensures StartsWith(s, Label(t)) <==> s == Label(t)
  {
    if StartsWith(s, Label(t)) {
      assert |Label(t)| <= 5;
      assert s == s[..|Label(t)|];
    }
  }

  /** A requested time with non-zero seconds is labelled "HH:mm:ss", which
      no "HH:mm" slot starts with: such a request is never valid. */
  lemma SecondsNeverMatch(s: string, t: LocalTime)
    requires IsHourMinuteLabel(s) && t.second != 0
    ensures !StartsWith(s, Label(t))
  {
  }

  /** After a booking at t, the label of t is no longer offered by the
      doctor on that date, whatever the booking's status becomes. */
  lemma BookedSlotWithdrawn(db: Db, a: Appointment, env: Env)
    requires BookAppointmentOutcome(db, a, env, true).result == 1
    ensures Label(a.time.value.time) !in
      GetDoctorAvailability(BookAppointmentOutcome(db, a, env, true).db, a.doctor.value, a.time.value.date)
  {
    var after := BookAppointmentOutcome(db, a, env, true).db;
    var row := a.(id := Some(db.nextAppointmentId));
    assert row in after.appointments;
    assert BookedAt(after, a.doctor.value, a.time.value.date, Label(a.time.value.time));
  }

  /** A known doctor and a set time with no open slot validate to 0. */
  lemma NoOpenSlotIsTaken(db: Db, b: Appointment)
    requires b.doctor.Some? && b.time.Some? && FindDoctorById(db.doctors, b.doctor.value).Some?
    requires !SlotOpenFor(db, b.doctor.value, b.time.value)
    ensures ValidateAppointment(db, b) == Returns(0)
  {
    var d := FindDoctorById(db.doctors, b.doctor.value).value;
    assert d in db.doctors && d.id == b.doctor;
  }

  /** No double booking on "HH:mm" schedules: once an appointment is booked
      at t, validating any other request for the same doctor and time gives
      0, "Time slot not available". */
  lemma NoDoubleBooking(db: Db, a: Appointment, env: Env, b: Appointment)
    requires BookAppointmentOutcome(db, a, env, true).result == 1
    requires b.doctor == a.doctor && b.time == a.time
    requires forall s :: s in FindDoctorById(db.doctors, a.doctor.value).value.availableTimes ==> IsHourMinuteLabel(s)
    ensures ValidateAppointment(BookAppointmentOutcome(db, a, env, true).db, b) == Returns(0)
  {
    var after := Insert(db, a);
    var doctorId, t := a.doctor.value, a.time.value;
    assert after.doctors == db.doctors;
    var row := a.(id := Some(db.nextAppointmentId));
    assert row in after.appointments;
    assert BookedAt(after, doctorId, t.date, Label(t.time));
    assert !SlotOpenFor(after, doctorId, t) by {
      var slots := FindDoctorById(after.doctors, doctorId).value.availableTimes;
      forall s | s in slots && StartsWith(s, Label(t.time)) ensures BookedAt(after, doctorId, t.date, s) {
        PrefixIsEqualityOnHourMinuteSlots(s, t.time);
      }
    }
    NoOpenSlotIsTaken(after, b);
  }

  /** Once cancelled, an appointment is gone: cancelling it again answers
      "Appointment not found." and changes nothing. */
  lemma SecondCancelNotFound(db: Db, id: nat, token: Token, env: Env, storageOk: bool, again: Token)
    requires CancelAppointmentOutcome(db, id, token, env, storageOk).result == CancelledMessage
    ensures CancelAppointmentOutcome(CancelAppointmentOutcome(db, id, token, env, storageOk).db, id, again, env, storageOk)
         == Step(NotFoundMessage, CancelAppointmentOutcome(db, id, token, env, storageOk).db)
  {
    DeleteByIdRemoves(db.appointments, id);
  }

  /** Cancelling gives the slot back: the cancelled appointment's label is
      offered again on its date when the doctor publishes it and no other
      appointment of the doctor holds it that day. */
  lemma CancelFreesSlot(db: Db, id: nat, token: Token, env: Env, a: Appointment)
    requires CancelAppointmentOutcome(db, id, token, env, true).result == CancelledMessage
    requires a in db.appointments && a.id == Some(id) && a.doctor.Some? && a.time.Some?
    requires FindDoctorById(db.doctors, a.doctor.value).Some?
    requires Label(a.time.value.time) in FindDoctorById(db.doctors, a.doctor.value).value.availableTimes
    requires forall b :: (b in db.appointments && b.id != Some(id) && b.doctor == a.doctor && b.time.Some?
      && b.time.value.date == a.time.value.date) ==> Label(b.time.value.time) != Label(a.time.value.time)
    ensures Label(a.time.value.time) in
      GetDoctorAvailability(CancelAppointmentOutcome(db, id, token, env, true).db, a.doctor.value, a.time.value.date)
  {
    var after := CancelAppointmentOutcome(db, id, token, env, true).db;
    assert after.doctors == db.doctors;
    assert after.appointments == DeleteById(db.appointments, id);
    assert !BookedAt(after, a.doctor.value, a.time.value.date, Label(a.time.value.time));
  }

  /** The token an admin login issues passes validateToken for the admin
      role as long as it lives (a blank username never does). */
  lemma AdminLoginTokenValidates(db: Db, admin: Admin, issue: Env, check: Env)
    requires ValidateAdmin(db, admin, issue).Data?
    requires admin.username.Some? && admin.username.value != ""
    requires check.secret == issue.secret && issue.nowMillis <= check.nowMillis <= issue.nowMillis + LifetimeMillis
    ensures ValidateToken(db, ValidateAdmin(db, admin, issue).value, "admin", check)
  {
    IssueThenExtract(admin.username, issue, check);
    assert ToLower("admin") == "admin";
  }

  /** The token a patient login issues passes validateToken for the patient
      role as long as it lives, and resolves back to that patient's id. */
  lemma PatientLoginTokenResolves(db: Db, login: Login, issue: Env, check: Env)
    requires ValidatePatientLogin(db, login, issue).Data?
    requires login.email.Some? && login.email.value != ""
    requires check.secret == issue.secret && issue.nowMillis <= check.nowMillis <= issue.nowMillis + LifetimeMillis
    ensures ValidateToken(db, ValidatePatientLogin(db, login, issue).value, "patient", check)
    ensures GetPatientIdFromToken(db, ValidatePatientLogin(db, login, issue).value, check)
         == FindPatientByEmail(db.patients, login.email).value.value.id
  {
    IssueThenExtract(login.email, issue, check);
    assert ToLower("patient") == "patient";
  }

  /** A login body without a password: the doctor login answers 500 with
      the NullPointerException exactly when a doctor has the email, while
      the patient and admin logins never issue a token for it. */
  lemma NullPasswordLogins(db: Db, email: string, issued: string, env: Env)
    requires DoctorRepository.UniqueEmails(db.doctors)
    ensures DoctorController.DoctorLogin(db, Login(Some(email), None), issued) == Message(InternalServerError, "NullPointerException")
      <==> exists d :: d in db.doctors && d.email == email
    ensures !ValidatePatientLogin(db, Login(Some(email), None), env).Data?
    ensures !ValidateAdmin(db, Admin(Some(email), None), env).Data?
  {
    DoctorRepository.FindByEmailReturns(db.doctors, email);
  }

  /** A token past its seven days passes no role check. */
  lemma ExpiredTokenRejected(db: Db, token: Token, role: string, env: Env)
    requires token.Jws? && env.nowMillis > token.expiration
    ensures !ValidateToken(db, token, role, env)
    ensures GetPatientIdFromToken(db, token, env).None?
  {
  }
}
