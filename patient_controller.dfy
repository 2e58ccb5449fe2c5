/** PatientController: sign-up behind the duplicate check, and the
    patient-token-gated reads of a patient's details and appointments. */
module PatientController {
  import opened Wrappers
  import opened Models
  import opened Database
  import opened Responses
  import opened TokenService
  import opened AppointmentDto
  import opened PatientService
  import opened Service

  const UnauthorizedAccess := "Unauthorized access."

  /** getPatient: the token's patient, for a valid patient token. */
  function GetPatient(db: Db, token: Token, env: Env): (r: Reply<Patient>)
    ensures !ValidateToken(db, token, "patient", env) ==> r == Message(Unauthorized, UnauthorizedAccess)
    ensures r.Data? ==> ValidateToken(db, token, "patient", env) && r.value in db.patients
    ensures ValidateToken(db, token, "patient", env) ==> r == GetPatientDetails(db, token, env)
  {
    if ValidateToken(db, token, "patient", env) then GetPatientDetails(db, token, env)
    else Message(Unauthorized, UnauthorizedAccess)
  }

  /** createPatient: CONFLICT and nothing stored when a patient already has
      the email or the phone; otherwise the patient is created, CREATED on
      1 and a server error on anything else. */
  function CreatePatient(db: Db, p: Patient, storageOk: bool): (r: Step<Reply<()>>)
    ensures ValidatePatient(db, p) == Returns(false) ==>
      r == Step(Message(Conflict, "Patient with email id or phone no already exist"), db)
    ensures r.db != db ==> ValidatePatient(db, p) == Returns(true)
    ensures r.result.status == Created <==> ValidatePatient(db, p) == Returns(true) && CreatePatientOutcome(db, p, storageOk).result == 1
    ensures r.result.status == Created ==> r.db == CreatePatientOutcome(db, p, storageOk).db
    ensures r.result.status in {Created, Conflict, InternalServerError}
    ensures ValidatePatient(db, p) == Returns(true) && CreatePatientOutcome(db, p, storageOk).result != 1 ==>
      r == Step(Message(InternalServerError, "Internal server error"), db)
    ensures ValidatePatient(db, p).Throws? ==> r == Step(Message(InternalServerError, ValidatePatient(db, p).exception), db)
  {
    var check := ValidatePatient(db, p);
    if check.Throws? then Step(Message(InternalServerError, check.exception), db)
    else if !check.value then Step(Message(Conflict, "Patient with email id or phone no already exist"), db)
    else
      var created := CreatePatientOutcome(db, p, storageOk);
      if created.result == 1 then Step(Message(Created, "Signup successful"), created.db)
      else Step(Message(InternalServerError, "Internal server error"), created.db)
  }

  /** Sign-up never stores a second patient with an email or a phone
      already registered. */
  lemma SignupKeepsContactsUnique(db: Db, p: Patient, storageOk: bool)
    requires CreatePatient(db, p, storageOk).db != db
    ensures forall q :: q in db.patients ==> q.email != p.email && q.phone != p.phone
  {
  }

  /** login: validatePatientLogin's answer; a token only for a stored
      patient with that email whose stored password is the one given. */
  function Login(db: Db, login: Login, env: Env): (r: Reply<Token>)
    ensures r.Data? ==> exists p :: p in db.patients && p.email == login.email && p.password.Some? && p.password == login.password
    ensures r.Data? ==> GenerateToken(login.email, env) == Returns(r.value)
    ensures r.Message? ==> r.status in {Unauthorized, InternalServerError}
    ensures r.Data? <==>
      && FindPatientByEmail(db.patients, login.email).Returns?
      && FindPatientByEmail(db.patients, login.email).value.Some?
      && FindPatientByEmail(db.patients, login.email).value.value.password.Some?
      && FindPatientByEmail(db.patients, login.email).value.value.password == login.password
      && !WeakKey(env)
    ensures (forall p :: p in db.patients ==> p.email != login.email || (p.password.Some? && p.password != login.password))
      && FindPatientByEmail(db.patients, login.email).Returns?
      ==> r == Message(Unauthorized, "Invalid credentials")
  {
    ValidatePatientLogin(db, login, env)
  }

  /** getPatientAppointment: for a valid patient token, the service's
      answer for the requested id. */
  function GetPatientAppointment(db: Db, id: nat, token: Token, env: Env): (r: Reply<seq<DtoView>>)
    ensures !ValidateToken(db, token, "patient", env) ==> r == Message(Unauthorized, UnauthorizedAccess)
    ensures r.Data? ==> forall v :: v in r.value ==> v.patientId == Some(id)
    ensures ValidateToken(db, token, "patient", env) ==> r == PatientService.GetPatientAppointment(db, Some(id), token, env)
  {
    if !ValidateToken(db, token, "patient", env) then Message(Unauthorized, UnauthorizedAccess)
    else
      var reply := PatientService.GetPatientAppointment(db, Some(id), token, env);
      assert reply.Data? ==> forall v :: v in reply.value ==> v.patientId == Some(id) by {
        if reply.Data? {
          forall v | v in reply.value ensures v.patientId == Some(id) {
            OnlyOwnAppointments(db, Some(id), token, env, v);
          }
        }
      }
      reply
  }

  /** filterPatientAppointment: path parameters are never null, so the
      condition-and-doctor filter always applies, for the token's patient. */
  function FilterPatientAppointment(db: Db, condition: string, name: string, token: Token, env: Env): (r: Reply<seq<DtoView>>)
    ensures !ValidateToken(db, token, "patient", env) ==> r == Message(Unauthorized, UnauthorizedAccess)
    ensures r.Data? ==> ValidateToken(db, token, "patient", env) && GetPatientIdFromToken(db, token, env).Some?
    ensures r.Data? && GetPatientIdFromToken(db, token, env).Some? ==>
      r == FilterByDoctorAndCondition(db, condition, name, GetPatientIdFromToken(db, token, env).value)
    ensures r.Data? ==> forall v :: v in r.value ==> v.patientId == GetPatientIdFromToken(db, token, env)
    ensures ValidateToken(db, token, "patient", env) && GetPatientIdFromToken(db, token, env).Some? ==>
      r == FilterByDoctorAndCondition(db, condition, name, GetPatientIdFromToken(db, token, env).value)
    ensures ValidateToken(db, token, "patient", env) && GetPatientIdFromToken(db, token, env).None? ==>
      r == Message(InternalServerError, "NullPointerException")
  {
    if !ValidateToken(db, token, "patient", env) then Message(Unauthorized, UnauthorizedAccess)
    else
      var filtered := FilterPatient(db, Some(condition), Some(name), token, env);
      if filtered.Throws? then Message(InternalServerError, filtered.exception) else filtered.value
  }
}
