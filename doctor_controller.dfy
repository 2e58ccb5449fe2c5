/** DoctorController: availability for any role whose token checks, the
    admin-only doctor management with its result codes, the doctor login
    and the path-parameter filter. */
module DoctorController {
  import opened Wrappers
  import opened Text
  import opened Times
  import opened Models
  import opened Database
  import opened Responses
  import opened TokenService
  import opened DoctorService
  import opened Service

  const AdminRequired: Reply<()> := Message(Unauthorized, "Unauthorized access")

  /** getDoctorAvailability: the free slots, when the token checks for the
      role named in the path. */
  function GetDoctorAvailability(db: Db, user: string, doctorId: nat, date: LocalDate, token: Token, env: Env): (r: Reply<seq<string>>)
    ensures r.Data? <==> ValidateToken(db, token, user, env)
    ensures r.Data? ==> r.status == Ok && r.value == DoctorService.GetDoctorAvailability(db, doctorId, date)
    ensures r.Message? ==> r == Message(Unauthorized, "Unauthorized access.")
  {
    if ValidateToken(db, token, user, env) then Data(Ok, DoctorService.GetDoctorAvailability(db, doctorId, date))
    else Message(Unauthorized, "Unauthorized access.")
  }

  /** getDoctor: every stored doctor, under the key "doctors", with no
      token required. */
  function GetDoctor(db: Db): (r: map<string, seq<Doctor>>)
    ensures r.Keys == {"doctors"}
    ensures forall d :: d in r["doctors"] <==> d in db.doctors
  {
    map["doctors" := GetDoctors(db)]
  }

  /** saveDoctor: 1 is CREATED, -1 CONFLICT, anything else a server error;
      without an admin token nothing happens. */
  function SaveDoctor(db: Db, doctor: Doctor, token: Token, env: Env, storageOk: bool): (r: Step<Reply<()>>)
    ensures !ValidateToken(db, token, "admin", env) ==> r == Step(AdminRequired, db)
    ensures ValidateToken(db, token, "admin", env) ==> r.db == SaveDoctorOutcome(db, doctor, storageOk).db
    ensures r.result.status == Created <==> ValidateToken(db, token, "admin", env) && SaveDoctorOutcome(db, doctor, storageOk).result == 1
    ensures r.result.status == Conflict <==> ValidateToken(db, token, "admin", env) && SaveDoctorOutcome(db, doctor, storageOk).result == -1
    ensures r.result.status in {Created, Conflict, InternalServerError, Unauthorized}
    ensures ValidateToken(db, token, "admin", env) && SaveDoctorOutcome(db, doctor, storageOk).result == 0 ==>
      r == Step(Message(InternalServerError, "Some internal error occurred"), db)
  {
    if !ValidateToken(db, token, "admin", env) then Step(AdminRequired, db)
    else
      var saved := SaveDoctorOutcome(db, doctor, storageOk);
      if saved.result == 1 then Step(Message(Created, "Doctor added to db"), saved.db)
      else if saved.result == -1 then Step(Message(Conflict, "Doctor already exists"), saved.db)
      else Step(Message(InternalServerError, "Some internal error occurred"), saved.db)
  }

  /** doctorLogin: a success exactly when validateDoctor's answer is not
      the text "Invalid Credentials"; an exception escapes as a 500. */
  function DoctorLogin(db: Db, login: Login, issued: string): (r: Reply<string>)
    ensures r.Data? <==> ValidateDoctor(db, login, issued).Returns? && ValidateDoctor(db, login, issued).value != "Invalid Credentials"
    ensures r.Data? ==> r.status == Ok && r.value == issued
    ensures ValidateDoctor(db, login, issued) == Returns("Invalid Credentials") ==> r == Message(Unauthorized, "Invalid Credentials")
    ensures ValidateDoctor(db, login, issued).Throws? ==> r == Message(InternalServerError, ValidateDoctor(db, login, issued).exception)
  {
    var result := ValidateDoctor(db, login, issued);
    if result.Throws? then Message(InternalServerError, result.exception)
    else if result.value != "Invalid Credentials" then Data(Ok, result.value)
    else Message(Unauthorized, "Invalid Credentials")
  }

  /** The result code mapping of update and delete: 1 is OK, -1 NOT_FOUND,
      anything else a server error. */
  function CodeReply(code: int, done: string, missing: string): (r: Reply<()>)
    ensures r.status == Ok <==> code == 1
    ensures r.status == NotFound <==> code == -1
    ensures r.status in {Ok, NotFound, InternalServerError}
  {
    if code == 1 then Message(Ok, done)
    else if code == -1 then Message(NotFound, missing)
    else Message(InternalServerError, "Some internal error occurred")
  }

  /** updateDoctor: admin only. */
  function UpdateDoctor(db: Db, doctor: Doctor, token: Token, env: Env, storageOk: bool): (r: Step<Reply<()>>)
    ensures !ValidateToken(db, token, "admin", env) ==> r == Step(AdminRequired, db)
    ensures ValidateToken(db, token, "admin", env) ==>
      r == Step(CodeReply(UpdateDoctorOutcome(db, doctor, storageOk).result, "Doctor updated", "Doctor not found"),
                UpdateDoctorOutcome(db, doctor, storageOk).db)
  {
    if !ValidateToken(db, token, "admin", env) then Step(AdminRequired, db)
    else
      var updated := UpdateDoctorOutcome(db, doctor, storageOk);
      Step(CodeReply(updated.result, "Doctor updated", "Doctor not found"), updated.db)
  }

  /** deleteDoctor: admin only. */
  function DeleteDoctor(db: Db, id: nat, token: Token, env: Env, storageOk: bool): (r: Step<Reply<()>>)
    ensures !ValidateToken(db, token, "admin", env) ==> r == Step(AdminRequired, db)
    ensures r.result.status == Ok ==> forall a :: a in r.db.appointments ==> a.doctor != Some(id)
    ensures r.result.status == Ok ==> forall d :: d in r.db.doctors ==> d.id != Some(id)
    ensures r.result.status != Ok ==> r.db == db
    ensures r.result.status == NotFound <==> ValidateToken(db, token, "admin", env) && FindDoctorById(db.doctors, id).None?
    ensures ValidateToken(db, token, "admin", env) ==>
      r == Step(CodeReply(DeleteDoctorOutcome(db, Some(id), storageOk).result, "Doctor deleted successfully", "Doctor not found with id"),
                DeleteDoctorOutcome(db, Some(id), storageOk).db)
  {
    if !ValidateToken(db, token, "admin", env) then Step(AdminRequired, db)
    else
      var deleted := DeleteDoctorOutcome(db, Some(id), storageOk);
      Step(CodeReply(deleted.result, "Doctor deleted successfully", "Doctor not found with id"), deleted.db)
  }

  /** filter: the path's name, time and speciality reach filterDoctor in
      its own order (name, specialty, time), all three non-null. */
  function Filter(db: Db, name: string, time: string, speciality: string): (r: Reply<map<string, seq<Doctor>>>)
    ensures r.Data? ==> r.status == Ok && r.value.Keys == {"doctors"}
    ensures r.Data? ==> forall d :: d in r.value["doctors"] <==>
      d in db.doctors && ContainsIgnoreCase(d.name, name) && EqualsIgnoreCase(d.specialty, speciality) && HasSlotIn(d, time)
    ensures r.Message? ==> r.status == InternalServerError
    ensures r.Data? <==> FilterDoctor(db, Some(name), Some(speciality), Some(time)).Returns?
    ensures r.Data? ==> r.value == FilterDoctor(db, Some(name), Some(speciality), Some(time)).value
    ensures (forall d :: d in db.doctors ==> AnySlotInPeriod(d.availableTimes, time).Returns?) ==> r.Data?
  {
    var found := FilterDoctor(db, Some(name), Some(speciality), Some(time));
    if found.Throws? then Message(InternalServerError, found.exception) else Data(Ok, found.value)
  }
}
