/** Service: the façade the controllers call. It checks a proposed booking
    against the doctor's free slots, answers the admin and patient logins,
    checks a registration for duplicates, and routes the doctor and
    patient-appointment filters by which arguments are null. */
module Service {
  import opened Wrappers
  import opened Text
  import opened Times
  import opened Models
  import opened Database
  import opened Responses
  import opened DoctorRepository
  import opened DoctorService
  import opened PatientService
  import opened TokenService
  import opened AppointmentDto

  // ---------------------------------------------------------------------
  // validateAppointment

  /** anyMatch(slot -> slot.startsWith(requested)). */
  function AnySlotStartsWith(slots: seq<string>, requested: string): (r: bool)
    ensures r <==> exists s :: s in slots && StartsWith(s, requested)
  {
    if slots == [] then false
    else
      assert forall s :: s in slots <==> s == slots[0] || s in slots[1..];
      StartsWith(slots[0], requested) || AnySlotStartsWith(slots[1..], requested)
  }

  /** The doctor with that id publishes a slot, not booked on that date,
      whose label starts with the label of the requested time of day. */
  ghost predicate SlotOpenFor(db: Db, doctorId: nat, t: LocalDateTime) {
    var d := FindDoctorById(db.doctors, doctorId);
    d.Some? && exists s :: s in d.value.availableTimes && !BookedAt(db, doctorId, t.date, s) && StartsWith(s, Label(t.time))
  }

  /** validateAppointment: -1 when no doctor has the appointment's doctor id,
      1 when a free slot of that day starts with the requested time, 0
      otherwise. A missing doctor or, for a known doctor, a missing time
      makes it throw. */
  function ValidateAppointment(db: Db, a: Appointment): (r: Result<int>)
    ensures r.Throws? <==> a.doctor.None? || (FindDoctorById(db.doctors, a.doctor.value).Some? && a.time.None?)
    ensures r == Returns(-1) <==> a.doctor.Some? && forall d :: d in db.doctors ==> d.id != a.doctor
    ensures r == Returns(1) <==> a.doctor.Some? && a.time.Some? && SlotOpenFor(db, a.doctor.value, a.time.value)
    ensures r.Returns? ==> r.value in {-1, 0, 1}
  {
    if a.doctor.None? then Throws("NullPointerException")
    else
      var doctor := FindDoctorById(db.doctors, a.doctor.value);
      if doctor.None? then Returns(-1)
      else if a.time.None? then Throws("NullPointerException")
      else
        var t := a.time.value;
        var slots := GetDoctorAvailability(db, a.doctor.value, t.date);
        var open := AnySlotStartsWith(slots, Label(t.time));
        Returns(if open then 1 else 0)
  }

  // ---------------------------------------------------------------------
  // Registration and logins

  /** validatePatient: true when no patient has the email or the phone;
      the finder throws when two patients match. */
  function ValidatePatient(db: Db, p: Patient): (r: Result<bool>)
    ensures r == Returns(true) <==> forall q :: q in db.patients ==> q.email != p.email && q.phone != p.phone
    ensures r == Returns(false) ==> exists q :: q in db.patients && (q.email == p.email || q.phone == p.phone)
    ensures r.Throws? <==>
      exists i, j :: 0 <= i < j < |db.patients|
        && (db.patients[i].email == p.email || db.patients[i].phone == p.phone)
        && (db.patients[j].email == p.email || db.patients[j].phone == p.phone)
  {
    var existing := FindPatientByEmailOrPhone(db.patients, p.email, p.phone);
    if existing.Throws? then Throws(existing.exception) else Returns(existing.value.None?)
  }

  /** validateAdmin: a token for the username when the admin exists and the
      password equals the stored one; UNAUTHORIZED otherwise; 500 when a
      call throws, a null stored password included. A null username selects
      the admins whose username is null; a null password given matches no
      stored one. */
  function ValidateAdmin(db: Db, admin: Admin, env: Env): (r: Reply<Token>)
    ensures r.Data? <==>
      && FindAdminByUsername(db.admins, admin.username).Returns?
      && FindAdminByUsername(db.admins, admin.username).value.Some?
      && FindAdminByUsername(db.admins, admin.username).value.value.password.Some?
      && FindAdminByUsername(db.admins, admin.username).value.value.password == admin.password
      && !WeakKey(env)
    ensures r.Data? ==> r.status == Ok && GenerateToken(admin.username, env) == Returns(r.value)
    ensures (forall a :: a in db.admins ==> a.username != admin.username || (a.password.Some? && a.password != admin.password))
      && FindAdminByUsername(db.admins, admin.username).Returns?
      ==> r == Message(Unauthorized, "Invalid credentials")
    ensures FindAdminByUsername(db.admins, admin.username).Throws? ==> r == Message(InternalServerError, "Internal Server Error")
    ensures && FindAdminByUsername(db.admins, admin.username).Returns?
      && FindAdminByUsername(db.admins, admin.username).value.Some?
      && FindAdminByUsername(db.admins, admin.username).value.value.password.None?
      ==> r == Message(InternalServerError, "Internal Server Error")
    ensures && FindAdminByUsername(db.admins, admin.username).Returns?
      && FindAdminByUsername(db.admins, admin.username).value.Some?
      && FindAdminByUsername(db.admins, admin.username).value.value.password.Some?
      && FindAdminByUsername(db.admins, admin.username).value.value.password == admin.password
      && WeakKey(env)
      ==> r == Message(InternalServerError, "Internal Server Error")
    ensures r.Message? && r.status != Unauthorized ==> r == Message(InternalServerError, "Internal Server Error")
  {
    var found := FindAdminByUsername(db.admins, admin.username);
    if found.Throws? then Message(InternalServerError, "Internal Server Error")
    else if found.value.None? then Message(Unauthorized, "Invalid credentials")
    else if found.value.value.password.None? then Message(InternalServerError, "Internal Server Error")
    else if found.value.value.password == admin.password then
      var token := GenerateToken(found.value.value.username, env);
      if token.Throws? then Message(InternalServerError, "Internal Server Error")
      else Data(Ok, token.value)
    else Message(Unauthorized, "Invalid credentials")
  }

  /** validatePatientLogin: a token for the email when the patient exists and
      the password equals the stored one (no hashing); UNAUTHORIZED
      otherwise; 500 when a call throws, a null stored password included.
      A null email selects the patients whose email is null; a null
      password given matches no stored one. */
  function ValidatePatientLogin(db: Db, login: Login, env: Env): (r: Reply<Token>)
    ensures r.Data? <==>
      && FindPatientByEmail(db.patients, login.email).Returns?
      && FindPatientByEmail(db.patients, login.email).value.Some?
      && FindPatientByEmail(db.patients, login.email).value.value.password.Some?
      && FindPatientByEmail(db.patients, login.email).value.value.password == login.password
      && !WeakKey(env)
    ensures r.Data? ==> r.status == Ok && GenerateToken(login.email, env) == Returns(r.value)
    ensures (forall p :: p in db.patients ==> p.email != login.email || (p.password.Some? && p.password != login.password))
      && FindPatientByEmail(db.patients, login.email).Returns?
      ==> r == Message(Unauthorized, "Invalid credentials")
    ensures FindPatientByEmail(db.patients, login.email).Throws? ==> r == Message(InternalServerError, "Internal Server Error")
    ensures && FindPatientByEmail(db.patients, login.email).Returns?
      && FindPatientByEmail(db.patients, login.email).value.Some?
      && FindPatientByEmail(db.patients, login.email).value.value.password.None?
      ==> r == Message(InternalServerError, "Internal Server Error")
    ensures && FindPatientByEmail(db.patients, login.email).Returns?
      && FindPatientByEmail(db.patients, login.email).value.Some?
      && FindPatientByEmail(db.patients, login.email).value.value.password.Some?
      && FindPatientByEmail(db.patients, login.email).value.value.password == login.password
      && WeakKey(env)
      ==> r == Message(InternalServerError, "Internal Server Error")
    ensures r.Message? && r.status != Unauthorized ==> r == Message(InternalServerError, "Internal Server Error")
  {
    var found := FindPatientByEmail(db.patients, login.email);
    if found.Throws? then Message(InternalServerError, "Internal Server Error")
    else if found.value.None? then Message(Unauthorized, "Invalid credentials")
    else if found.value.value.password.None? then Message(InternalServerError, "Internal Server Error")
    else if found.value.value.password == login.password then
      var token := GenerateToken(found.value.value.email, env);
      if token.Throws? then Message(InternalServerError, "Internal Server Error")
      else Data(Ok, token.value)
    else Message(Unauthorized, "Invalid credentials")
  }

  // ---------------------------------------------------------------------
  // filterDoctor

  /** What filterDoctor asks of a doctor for each non-null argument. The
      name is matched case-sensitively unless a specialty is also given. */
  ghost predicate Admits(d: Doctor, name: Option<string>, specialty: Option<string>, time: Option<string>) {
    && (name.Some? ==> if specialty.Some? then ContainsIgnoreCase(d.name, name.value) else Contains(d.name, name.value))
    && (specialty.Some? ==> EqualsIgnoreCase(d.specialty, specialty.value))
    && (time.Some? ==> HasSlotIn(d, time.value))
  }

  /** filterDoctor: the doctors every non-null argument admits, under the
      single key "doctors"; only the time filter can throw. */
  function FilterDoctor(db: Db, name: Option<string>, specialty: Option<string>, time: Option<string>): (r: Result<map<string, seq<Doctor>>>)
    ensures time.None? ==> r.Returns?
    ensures r.Returns? ==> r.value.Keys == {"doctors"}
    ensures r.Returns? ==> forall d :: d in r.value["doctors"] <==> d in db.doctors && Admits(d, name, specialty, time)
    ensures time.Some? && (forall d :: d in db.doctors ==> AnySlotInPeriod(d.availableTimes, time.value).Returns?) ==> r.Returns?
    ensures r.Throws? <==>
      time.Some? && exists d :: d in db.doctors && Admits(d, name, specialty, None) && AnySlotInPeriod(d.availableTimes, time.value).Throws?
  {
    if name.Some? && specialty.Some? && time.Some? then
      NameSpecialtyTimeAdmits(db, name.value, specialty.value, time.value);
      FilterDoctorsByNameSpecilityandTime(db, name.value, specialty.value, time.value)
    else if name.Some? && time.Some? then
      NameTimeAdmits(db, name.value, time.value);
      FilterDoctorByNameAndTime(db, name.value, time.value)
    else if name.Some? && specialty.Some? then Returns(FilterDoctorByNameAndSpecility(db, name.value, specialty.value))
    else if time.Some? && specialty.Some? then
      SpecialtyTimeAdmits(db, specialty.value, time.value);
      FilterDoctorByTimeAndSpecility(db, time.value, specialty.value)
    else if name.Some? then Returns(FindDoctorByName(db, name.value))
    else if specialty.Some? then Returns(FilterDoctorBySpecility(db, specialty.value))
    else if time.Some? then
      TimeAdmits(db, time.value);
      FilterDoctorsByTime(db, time.value)
    else Returns(WrapDoctors(GetDoctors(db)))
  }

  /** The time filters in terms of Admits: what they list and when they throw. */
  lemma NameSpecialtyTimeAdmits(db: Db, name: string, specialty: string, time: string)
    ensures var r := FilterDoctorsByNameSpecilityandTime(db, name, specialty, time);
      && (r.Returns? ==> forall d :: d in r.value["doctors"] <==> d in db.doctors && Admits(d, Some(name), Some(specialty), Some(time)))
      && (r.Throws? <==> exists d :: d in db.doctors && Admits(d, Some(name), Some(specialty), None) && AnySlotInPeriod(d.availableTimes, time).Throws?)
  {
    forall d ensures Admits(d, Some(name), Some(specialty), Some(time)) <==>
      ContainsIgnoreCase(d.name, name) && EqualsIgnoreCase(d.specialty, specialty) && HasSlotIn(d, time) { }
    forall d ensures Admits(d, Some(name), Some(specialty), None) <==>
      ContainsIgnoreCase(d.name, name) && EqualsIgnoreCase(d.specialty, specialty) { }
  }

  lemma NameTimeAdmits(db: Db, name: string, time: string)
    ensures var r := FilterDoctorByNameAndTime(db, name, time);
      && (r.Returns? ==> forall d :: d in r.value["doctors"] <==> d in db.doctors && Admits(d, Some(name), None, Some(time)))
      && (r.Throws? <==> exists d :: d in db.doctors && Admits(d, Some(name), None, None) && AnySlotInPeriod(d.availableTimes, time).Throws?)
  {
    forall d ensures Admits(d, Some(name), None, Some(time)) <==> Contains(d.name, name) && HasSlotIn(d, time) { }
    forall d ensures Admits(d, Some(name), None, None) <==> Contains(d.name, name) { }
  }

  lemma SpecialtyTimeAdmits(db: Db, specialty: string, time: string)
    ensures var r := FilterDoctorByTimeAndSpecility(db, time, specialty);
      && (r.Returns? ==> forall d :: d in r.value["doctors"] <==> d in db.doctors && Admits(d, None, Some(specialty), Some(time)))
      && (r.Throws? <==> exists d :: d in db.doctors && Admits(d, None, Some(specialty), None) && AnySlotInPeriod(d.availableTimes, time).Throws?)
  {
    forall d ensures Admits(d, None, Some(specialty), Some(time)) <==> EqualsIgnoreCase(d.specialty, specialty) && HasSlotIn(d, time) { }
    forall d ensures Admits(d, None, Some(specialty), None) <==> EqualsIgnoreCase(d.specialty, specialty) { }
  }

  lemma TimeAdmits(db: Db, time: string)
    ensures var r := FilterDoctorsByTime(db, time);
      && (r.Returns? ==> forall d :: d in r.value["doctors"] <==> d in db.doctors && Admits(d, None, None, Some(time)))
      && (r.Throws? <==> exists d :: d in db.doctors && Admits(d, None, None, None) && AnySlotInPeriod(d.availableTimes, time).Throws?)
  {
    forall d ensures Admits(d, None, None, Some(time)) <==> HasSlotIn(d, time) { }
    forall d ensures Admits(d, None, None, None) { }
  }

  /** The literal "null" is a filter value like any other: a doctor whose
      name lacks it is not listed. */
  lemma NullTextIsAValue(db: Db, d: Doctor)
    requires d in db.doctors && !Contains(d.name, "null")
    ensures FilterDoctor(db, Some("null"), None, None).Returns?
    ensures !(d in FilterDoctor(db, Some("null"), None, None).value["doctors"])
  {
  }

  // ---------------------------------------------------------------------
  // filterPatient

  /** filterPatient: condition and name, condition only, name only or
      neither select the four PatientService queries for the token's
      patient. With both given and no patient for the token, unboxing the
      null id throws. Whatever is listed belongs to the token's patient. */
  function FilterPatient(db: Db, condition: Option<string>, name: Option<string>, token: Token, env: Env): (r: Result<Reply<seq<DtoView>>>)
    ensures r.Throws? <==> condition.Some? && name.Some? && GetPatientIdFromToken(db, token, env).None?
    ensures r.Throws? ==> r.exception == "NullPointerException"
    ensures condition.Some? && name.Some? && r.Returns? ==>
      r.value == FilterByDoctorAndCondition(db, condition.value, name.value, GetPatientIdFromToken(db, token, env).value)
    ensures condition.Some? && name.None? ==> r == Returns(FilterByCondition(db, condition.value, GetPatientIdFromToken(db, token, env)))
    ensures condition.None? && name.Some? ==> r == Returns(FilterByDoctor(db, name.value, GetPatientIdFromToken(db, token, env)))
    ensures condition.None? && name.None? ==>
      r == Returns(GetPatientAppointment(db, GetPatientIdFromToken(db, token, env), token, env))
    ensures r.Returns? && r.value.Data? ==>
      forall v :: v in r.value.value ==> v.patientId.Some? && v.patientId == GetPatientIdFromToken(db, token, env)
  {
    var patientId := GetPatientIdFromToken(db, token, env);
    if condition.Some? && name.Some? then
      if patientId.None? then Throws("NullPointerException")
      else Returns(FilterByDoctorAndCondition(db, condition.value, name.value, patientId.value))
    else if condition.Some? then Returns(FilterByCondition(db, condition.value, patientId))
    else if name.Some? then Returns(FilterByDoctor(db, name.value, patientId))
    else
      var reply := GetPatientAppointment(db, patientId, token, env);
      assert reply.Data? ==> forall v :: v in reply.value ==> v.patientId.Some? && v.patientId == patientId by {
        if reply.Data? {
          forall v | v in reply.value ensures v.patientId.Some? && v.patientId == patientId {
            OnlyOwnAppointments(db, patientId, token, env, v);
          }
        }
      }
      Returns(reply)
  }
}
