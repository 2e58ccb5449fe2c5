/** AppointmentController: a doctor's day listing and the patient's book,
    update and cancel requests, each behind a role check of the token. */
module AppointmentController {
  import opened Wrappers
  import opened Text
  import opened Times
  import opened Models
  import opened Database
  import opened Responses
  import opened DoctorRepository
  import opened AppointmentRepository
  import opened TokenService
  import opened Service
  import AppointmentService

  const UnauthorizedAccess: Reply<()> := Message(Unauthorized, "Unauthorized access.")

  /** getAppointments: for a valid doctor token, that doctor's appointments
      of the day (the doctor is the one whose email is the token's
      subject); the patient name narrows them as the service decides. */
  function GetAppointments(db: Db, date: LocalDate, patientName: string, token: Token, env: Env): (r: Reply<map<string, seq<Appointment>>>)
    ensures !ValidateToken(db, token, "doctor", env) ==> r == Message(Unauthorized, "Unauthorized access.")
    ensures r.Data? ==> r.status == Ok && ValidateToken(db, token, "doctor", env)
    ensures r.Data? ==> exists d :: (d in db.doctors && Some(d.email) == ExtractIdentifier(token, env).value
      && r.value == (if d.id.Some? then AppointmentService.GetAppointments(db, d.id.value, date, Some(patientName))
                     else map["appointments" := []]))
  {
    if !ValidateToken(db, token, "doctor", env) then Message(Unauthorized, "Unauthorized access.")
    else
      var email := ExtractIdentifier(token, env).value.value;
      var found := FindByEmail(db.doctors, email);
      if found.Throws? then Message(InternalServerError, found.exception)
      else if found.value.None? then Message(Unauthorized, "Doctor not found.")
      else if found.value.value.id.None? then Data(Ok, map["appointments" := []])
      else Data(Ok, AppointmentService.GetAppointments(db, found.value.value.id.value, date, Some(patientName)))
  }

  /** A token that passes the doctor check always names a doctor, so the
      "Doctor not found." answer cannot occur, and neither can an error. */
  lemma ValidDoctorTokenLists(db: Db, date: LocalDate, patientName: string, token: Token, env: Env)
    requires ValidateToken(db, token, "doctor", env)
    ensures GetAppointments(db, date, patientName, token, env).Data?
  {
    assert ToLower("doctor") == "doctor";
    var email := ExtractIdentifier(token, env).value.value;
    assert RoleLookup(db, "doctor", email) == Returns(true);
  }

  /** bookAppointment: with a valid patient token the booking is checked
      against the free slots and stored only when the check gives 1. */
  function BookAppointment(db: Db, a: Appointment, token: Token, env: Env, storageOk: bool): (r: Step<Reply<()>>)
    ensures !ValidateToken(db, token, "patient", env) ==> r == Step(UnauthorizedAccess, db)
    ensures r.db != db ==> ValidateToken(db, token, "patient", env) && ValidateAppointment(db, a) == Returns(1)
    ensures r.result.status == Created <==>
      ValidateToken(db, token, "patient", env) && ValidateAppointment(db, a) == Returns(1)
      && AppointmentService.BookAppointmentOutcome(db, a, env, storageOk).result == 1
    ensures r.result.status == Created ==>
      r.result == Message(Created, "Appointment booked successfully.") && r.db == Insert(db, a)
    ensures ValidateToken(db, token, "patient", env) && ValidateAppointment(db, a) == Returns(0) ==>
      r == Step(Message(BadRequest, "Time slot not available."), db)
    ensures ValidateToken(db, token, "patient", env) && ValidateAppointment(db, a) == Returns(-1) ==>
      r == Step(Message(BadRequest, "Doctor not found."), db)
    ensures ValidateToken(db, token, "patient", env) && ValidateAppointment(db, a) == Returns(1)
      && AppointmentService.BookAppointmentOutcome(db, a, env, storageOk).result != 1
      ==> r == Step(Message(InternalServerError, "Failed to book appointment."), db)
    ensures ValidateToken(db, token, "patient", env) && ValidateAppointment(db, a).Throws? ==>
      r == Step(Message(InternalServerError, ValidateAppointment(db, a).exception), db)
  {
    if !ValidateToken(db, token, "patient", env) then Step(UnauthorizedAccess, db)
    else
      var check := ValidateAppointment(db, a);
      if check.Throws? then Step(Message(InternalServerError, check.exception), db)
      else if check.value == 1 then
        var booked := AppointmentService.BookAppointmentOutcome(db, a, env, storageOk);
        if booked.result == 1 then Step(Message(Created, "Appointment booked successfully."), booked.db)
        else Step(Message(InternalServerError, "Failed to book appointment."), booked.db)
      else if check.value == 0 then Step(Message(BadRequest, "Time slot not available."), db)
      else Step(Message(BadRequest, "Doctor not found."), db)
  }

  /** The token is checked for the patient role only: which stored patient
      the booking names makes no difference to the answer. */
  lemma BookingPatientUnchecked(db: Db, a: Appointment, other: nat, token: Token, env: Env, storageOk: bool)
    requires a.patient.Some? && FindPatientById(db.patients, a.patient.value).Some?
    requires FindPatientById(db.patients, other).Some?
    ensures BookAppointment(db, a, token, env, storageOk).result
         == BookAppointment(db, a.(patient := Some(other)), token, env, storageOk).result
  {
    var b := a.(patient := Some(other));
    if ValidateToken(db, token, "patient", env) {
      ValidationIgnoresPatient(db, a, b);
      var check := ValidateAppointment(db, a);
      if check == Returns(1) {
        var booked := AppointmentService.BookAppointmentOutcome(db, a, env, storageOk);
        var rebooked := AppointmentService.BookAppointmentOutcome(db, b, env, storageOk);
        assert ReferencesResolve(db, a) == ReferencesResolve(db, b);
        assert (AppointmentViolations(a, env.now) == []) == (AppointmentViolations(b, env.now) == []);
        assert booked.result == rebooked.result;
      }
    }
  }

  /** validateAppointment reads the doctor and the time, never the patient. */
  lemma ValidationIgnoresPatient(db: Db, a: Appointment, b: Appointment)
    requires a.doctor == b.doctor && a.time == b.time
    ensures ValidateAppointment(db, a) == ValidateAppointment(db, b)
  {
  }

  /** updateAppointment: OK exactly when the service answers with its
      success text, BAD_REQUEST with the service's text otherwise. */
  function UpdateAppointment(db: Db, a: Appointment, token: Token, env: Env, storageOk: bool): (r: Step<Reply<()>>)
    ensures !ValidateToken(db, token, "patient", env) ==> r == Step(UnauthorizedAccess, db)
    ensures r.result.status == Ok <==>
      ValidateToken(db, token, "patient", env)
      && AppointmentService.UpdateAppointmentOutcome(db, a.id, a.time, token, env, storageOk).result
         == Returns(AppointmentService.UpdatedMessage)
    ensures r.result.status == Ok ==> r.db == AppointmentService.UpdateAppointmentOutcome(db, a.id, a.time, token, env, storageOk).db
    ensures r.result.status != Ok ==> r.db == db
    ensures r.result.status == BadRequest ==> r.result.Message?
    ensures r.result.status == BadRequest && r.result.Message? ==>
      Returns(r.result.text) == AppointmentService.UpdateAppointmentOutcome(db, a.id, a.time, token, env, storageOk).result
    ensures ValidateToken(db, token, "patient", env)
      && AppointmentService.UpdateAppointmentOutcome(db, a.id, a.time, token, env, storageOk).result.Returns?
      && AppointmentService.UpdateAppointmentOutcome(db, a.id, a.time, token, env, storageOk).result.value != AppointmentService.UpdatedMessage
      ==> r == Step(Message(BadRequest, AppointmentService.UpdateAppointmentOutcome(db, a.id, a.time, token, env, storageOk).result.value), db)
    ensures ValidateToken(db, token, "patient", env)
      && AppointmentService.UpdateAppointmentOutcome(db, a.id, a.time, token, env, storageOk).result.Throws?
      ==> r == Step(Message(InternalServerError, "TransactionSystemException"), db)
  {
    if !ValidateToken(db, token, "patient", env) then Step(UnauthorizedAccess, db)
    else
      var outcome := AppointmentService.UpdateAppointmentOutcome(db, a.id, a.time, token, env, storageOk);
      if outcome.result.Throws? then Step(Message(InternalServerError, outcome.result.exception), db)
      else if outcome.result.value == AppointmentService.UpdatedMessage then Step(Message(Ok, outcome.result.value), outcome.db)
      else Step(Message(BadRequest, outcome.result.value), outcome.db)
  }

  /** cancelAppointment: OK exactly when the service answers with its
      success text, BAD_REQUEST with the service's text otherwise. */
  function CancelAppointment(db: Db, id: nat, token: Token, env: Env, storageOk: bool): (r: Step<Reply<()>>)
    ensures !ValidateToken(db, token, "patient", env) ==> r == Step(UnauthorizedAccess, db)
    ensures r.result.status == Ok <==>
      ValidateToken(db, token, "patient", env)
      && AppointmentService.CancelAppointmentOutcome(db, id, token, env, storageOk).result == AppointmentService.CancelledMessage
    ensures r.result.status == Ok ==> r.db == db.(appointments := DeleteById(db.appointments, id))
    ensures r.result.status != Ok ==> r.db == db
    ensures r.result.status == BadRequest ==> r.result.Message?
    ensures r.result.status == BadRequest && r.result.Message? ==>
      r.result.text == AppointmentService.CancelAppointmentOutcome(db, id, token, env, storageOk).result
    ensures ValidateToken(db, token, "patient", env)
      && AppointmentService.CancelAppointmentOutcome(db, id, token, env, storageOk).result != AppointmentService.CancelledMessage
      ==> r == Step(Message(BadRequest, AppointmentService.CancelAppointmentOutcome(db, id, token, env, storageOk).result), db)
  {
    if !ValidateToken(db, token, "patient", env) then Step(UnauthorizedAccess, db)
    else
      var outcome := AppointmentService.CancelAppointmentOutcome(db, id, token, env, storageOk);
      if outcome.result == AppointmentService.CancelledMessage then Step(Message(Ok, outcome.result), outcome.db)
      else Step(Message(BadRequest, outcome.result), outcome.db)
  }
}
