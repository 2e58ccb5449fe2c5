/** PatientService: registration, and a patient's appointments as DTOs,
    whole or filtered by status ("past"/"future") and doctor name. */
module PatientService {
  import opened Wrappers
  import opened Text
  import opened Models
  import opened Database
  import opened Responses
  import opened AppointmentRepository
  import opened TokenService
  import opened AppointmentDto
  import opened Storage

  // ---------------------------------------------------------------------
  // convertToDTOs

  /** The DTO built for one appointment, from the doctor and patient rows
      its references name; a reference naming no row makes the getter
      chain throw. */
  function ToDto(db: Db, a: Appointment): (r: Result<DtoView>)
    ensures r.Returns? <==> ReferencesResolve(db, a)
    ensures r.Returns? ==>
      && r.value.id == a.id && r.value.doctorId == a.doctor && r.value.patientId == a.patient
      && r.value.appointmentTime == a.time && r.value.status == a.status
      && (exists d :: d in db.doctors && d.id == a.doctor && r.value.doctorName == Some(d.name))
      && (exists p :: p in db.patients && p.id == a.patient && r.value.patientName == p.name
            && r.value.patientEmail == p.email && r.value.patientPhone == p.phone && r.value.patientAddress == p.address)
    ensures r.Returns? && a.time.Some? ==>
      r.value.appointmentDate == Some(a.time.value.date) && r.value.appointmentTimeOnly == Some(a.time.value.time)
  {
    if !ReferencesResolve(db, a) then Throws("NullPointerException")
    else
      var d := FindDoctorById(db.doctors, a.doctor.value).value;
      var p := FindPatientById(db.patients, a.patient.value).value;
      Returns(Construct(a.id, d.id, Some(d.name), p.id, p.name, p.email, p.phone, p.address, a.time, a.status))
  }

  /** convertToDTOs: one DTO per appointment, in the same order; the first
      appointment whose references do not resolve makes it throw. */
  function ConvertToDTOs(db: Db, appointments: seq<Appointment>): (r: Result<seq<DtoView>>)
    ensures r.Returns? <==> forall a :: a in appointments ==> ReferencesResolve(db, a)
    ensures r.Returns? ==> |r.value| == |appointments|
    ensures r.Returns? ==> forall i :: 0 <= i < |appointments| ==> ToDto(db, appointments[i]) == Returns(r.value[i])
  {
    if appointments == [] then Returns([])
    else
      var head := ToDto(db, appointments[0]);
      if head.Throws? then Throws(head.exception)
      else
        var tail := appointments[1..];
        var rest := ConvertToDTOs(db, tail);
        assert forall a :: a in appointments <==> a == appointments[0] || a in tail;
        if rest.Throws? then Throws(rest.exception)
        else
          var r := [head.value] + rest.value;
          assert forall i :: 1 <= i < |appointments| ==> appointments[i] == tail[i - 1] && r[i] == rest.value[i - 1];
          Returns(r)
  }

  /** In an intact store every stored appointment converts. */
  lemma StoredAppointmentsConvert(db: Db, appointments: seq<Appointment>)
    requires Valid(db)
    requires forall a :: a in appointments ==> a in db.appointments
    ensures ConvertToDTOs(db, appointments).Returns?
  {
    forall a | a in appointments ensures ReferencesResolve(db, a) {
      assert StoredAppointment(db, a);
    }
  }

  /** Every DTO of a conversion describes an appointment of the list. */
  lemma {:induction false} DtosDescribeRows(db: Db, appointments: seq<Appointment>, v: DtoView)
    requires ConvertToDTOs(db, appointments).Returns?
    requires v in ConvertToDTOs(db, appointments).value
    ensures exists a :: (a in appointments && ReferencesResolve(db, a) && a.id == v.id && a.patient == v.patientId
                         && a.status == v.status && a.doctor == v.doctorId && a.time == v.appointmentTime)
  {
    var dtos := ConvertToDTOs(db, appointments).value;
    var i :| 0 <= i < |dtos| && dtos[i] == v;
    assert ToDto(db, appointments[i]) == Returns(v);
    assert appointments[i] in appointments;
  }

  // ---------------------------------------------------------------------
  // Queries

  /** "past" (any case) selects Completed, "future" selects Scheduled. */
  function ConditionStatus(condition: string): (r: Option<int>)
    ensures r == Some(StatusCompleted) <==> EqualsIgnoreCase("past", condition)
    ensures r == Some(StatusScheduled) <==> EqualsIgnoreCase("future", condition)
    ensures r.Some? ==> r.value in {StatusScheduled, StatusCompleted}
  {
    if EqualsIgnoreCase("past", condition) then Some(StatusCompleted)
    else if EqualsIgnoreCase("future", condition) then Some(StatusScheduled)
    else None
  }

  /** The DTOs of the rows, or the error message when converting throws. */
  function Listing(db: Db, rows: seq<Appointment>, errorText: string): (r: Reply<seq<DtoView>>)
    ensures r.Data? <==> ConvertToDTOs(db, rows).Returns?
    ensures r.Data? ==> r.status == Ok && Returns(r.value) == ConvertToDTOs(db, rows)
    ensures r.Message? ==> r == Message(InternalServerError, errorText)
  {
    var dtos := ConvertToDTOs(db, rows);
    if dtos.Throws? then Message(InternalServerError, errorText) else Data(Ok, dtos.value)
  }

  /** getPatientAppointment: the appointments of the patient with that id,
      only for a token whose subject is that patient's email. */
  function GetPatientAppointment(db: Db, id: Option<nat>, token: Token, env: Env): (r: Reply<seq<DtoView>>)
    ensures r == Message(Unauthorized, "Unauthorized access.") <==>
      && ExtractIdentifier(token, env).Returns?
      && FindPatientByEmail(db.patients, ExtractIdentifier(token, env).value).Returns?
      && var found := FindPatientByEmail(db.patients, ExtractIdentifier(token, env).value).value;
      (found.None? || (found.value.id.Some? && found.value.id != id))
    ensures r.Data? ==>
      && r.status == Ok && id.Some?
      && ExtractIdentifier(token, env).Returns?
      && (exists p :: p in db.patients && p.id == id && p.email == ExtractIdentifier(token, env).value)
      && Returns(r.value) == ConvertToDTOs(db, FindByPatientId(db.appointments, id.value))
    ensures r.Data? <==>
      && id.Some? && ExtractIdentifier(token, env).Returns?
      && FindPatientByEmail(db.patients, ExtractIdentifier(token, env).value).Returns?
      && (exists p :: p in db.patients && p.id == id && p.email == ExtractIdentifier(token, env).value)
      && ConvertToDTOs(db, FindByPatientId(db.appointments, id.value)).Returns?
    ensures r.Message? && r.status != Unauthorized ==> r == Message(InternalServerError, "Error fetching appointments.")
  {
    var email := ExtractIdentifier(token, env);
    if email.Throws? then Message(InternalServerError, "Error fetching appointments.")
    else
      var found := FindPatientByEmail(db.patients, email.value);
      if found.Throws? then Message(InternalServerError, "Error fetching appointments.")
      else if found.value.None? then Message(Unauthorized, "Unauthorized access.")
      else if found.value.value.id.None? then Message(InternalServerError, "Error fetching appointments.")
      else if found.value.value.id != id then Message(Unauthorized, "Unauthorized access.")
      else Listing(db, FindByPatientId(db.appointments, id.value), "Error fetching appointments.")
  }

  /** Whatever getPatientAppointment lists belongs to the requested patient. */
  lemma OnlyOwnAppointments(db: Db, id: Option<nat>, token: Token, env: Env, v: DtoView)
    requires GetPatientAppointment(db, id, token, env).Data?
    requires v in GetPatientAppointment(db, id, token, env).value
    ensures v.patientId == id && id.Some?
  {
    var rows := FindByPatientId(db.appointments, id.value);
    DtosDescribeRows(db, rows, v);
  }

  /** filterByCondition: the patient's appointments with the status the
      condition names, in ascending time; an unknown condition is a bad
      request and queries nothing. */
  function FilterByCondition(db: Db, condition: string, id: Option<nat>): (r: Reply<seq<DtoView>>)
    ensures ConditionStatus(condition).None? <==> r == Message(BadRequest, "Invalid condition.")
    ensures r.Data? <==> ConditionStatus(condition).Some? && ConvertToDTOs(db,
      FindByPatientIdAndStatusOrderByAppointmentTimeAsc(db.appointments, id, ConditionStatus(condition).value)).Returns?
    ensures r.Data? ==> r.status == Ok && ConditionStatus(condition).Some?
    ensures r.Data? ==> Returns(r.value) == ConvertToDTOs(db,
      FindByPatientIdAndStatusOrderByAppointmentTimeAsc(db.appointments, id, ConditionStatus(condition).value))
    ensures r.Data? ==> forall v :: v in r.value ==> v.patientId == id && id.Some? && v.status == ConditionStatus(condition).value
    ensures r.Message? && r.status != BadRequest ==> r == Message(InternalServerError, "Error filtering appointments.")
  {
    var status := ConditionStatus(condition);
    if status.None? then Message(BadRequest, "Invalid condition.")
    else
      var rows := FindByPatientIdAndStatusOrderByAppointmentTimeAsc(db.appointments, id, status.value);
      var r := Listing(db, rows, "Error filtering appointments.");
      assert r.Data? ==> forall v :: v in r.value ==> v.patientId == id && id.Some? && v.status == status.value by {
        if r.Data? {
          forall v | v in r.value ensures v.patientId == id && id.Some? && v.status == status.value {
            DtosDescribeRows(db, rows, v);
          }
        }
      }
      r
  }

  /** filterByDoctor: the patient's appointments whose doctor's name
      contains the given one, ignoring case. */
  function FilterByDoctor(db: Db, name: string, patientId: Option<nat>): (r: Reply<seq<DtoView>>)
    ensures r.Data? <==> ConvertToDTOs(db, FilterByDoctorNameAndPatientId(db, name, patientId)).Returns?
    ensures r.Data? ==> r.status == Ok && Returns(r.value) == ConvertToDTOs(db, FilterByDoctorNameAndPatientId(db, name, patientId))
    ensures r.Data? ==> forall v :: v in r.value ==> v.patientId == patientId && patientId.Some?
    ensures r.Message? ==> r == Message(InternalServerError, "Error filtering by doctor.")
  {
    var rows := FilterByDoctorNameAndPatientId(db, name, patientId);
    var r := Listing(db, rows, "Error filtering by doctor.");
    assert r.Data? ==> forall v :: v in r.value ==> v.patientId == patientId && patientId.Some? by {
      if r.Data? {
        forall v | v in r.value ensures v.patientId == patientId && patientId.Some? {
          DtosDescribeRows(db, rows, v);
        }
      }
    }
    r
  }

  /** filterByDoctorAndCondition: both filters together. */
  function FilterByDoctorAndCondition(db: Db, condition: string, name: string, patientId: nat): (r: Reply<seq<DtoView>>)
    ensures ConditionStatus(condition).None? <==> r == Message(BadRequest, "Invalid condition.")
    ensures r.Data? <==> ConditionStatus(condition).Some? && ConvertToDTOs(db,
      FilterByDoctorNameAndPatientIdAndStatus(db, name, patientId, ConditionStatus(condition).value)).Returns?
    ensures r.Data? ==> r.status == Ok && ConditionStatus(condition).Some?
    ensures r.Data? ==> Returns(r.value) == ConvertToDTOs(db,
      FilterByDoctorNameAndPatientIdAndStatus(db, name, patientId, ConditionStatus(condition).value))
    ensures r.Data? ==> forall v :: v in r.value ==> v.patientId == Some(patientId) && v.status == ConditionStatus(condition).value
    ensures r.Message? && r.status != BadRequest ==> r == Message(InternalServerError, "Error filtering by doctor and condition.")
  {
    var status := ConditionStatus(condition);
    if status.None? then Message(BadRequest, "Invalid condition.")
    else
      var rows := FilterByDoctorNameAndPatientIdAndStatus(db, name, patientId, status.value);
      var r := Listing(db, rows, "Error filtering by doctor and condition.");
      assert r.Data? ==> forall v :: v in r.value ==> v.patientId == Some(patientId) && v.status == status.value by {
        if r.Data? {
          forall v | v in r.value ensures v.patientId == Some(patientId) && v.status == status.value {
            DtosDescribeRows(db, rows, v);
          }
        }
      }
      r
  }

  /** getPatientDetails: the patient whose email is the token's subject. */
  function GetPatientDetails(db: Db, token: Token, env: Env): (r: Reply<Patient>)
    ensures r.Data? ==> r.status == Ok && r.value in db.patients
    ensures r.Data? ==> ExtractIdentifier(token, env).Returns? && r.value.email == ExtractIdentifier(token, env).value
    ensures r == Message(NotFound, "Patient not found.") <==>
      && ExtractIdentifier(token, env).Returns?
      && FindPatientByEmail(db.patients, ExtractIdentifier(token, env).value) == Returns(None)
    ensures ExtractIdentifier(token, env).Throws? ==> r == Message(InternalServerError, "Error fetching patient details.")
    ensures ExtractIdentifier(token, env).Returns? && FindPatientByEmail(db.patients, ExtractIdentifier(token, env).value).Throws?
      ==> r == Message(InternalServerError, "Error fetching patient details.")
    ensures ExtractIdentifier(token, env).Returns? ==>
      forall p :: FindPatientByEmail(db.patients, ExtractIdentifier(token, env).value) == Returns(Some(p)) ==> r == Data(Ok, p)
    ensures r.Message? && r.status != NotFound ==> r == Message(InternalServerError, "Error fetching patient details.")
  {
    var email := ExtractIdentifier(token, env);
    if email.Throws? then Message(InternalServerError, "Error fetching patient details.")
    else
      var found := FindPatientByEmail(db.patients, email.value);
      if found.Throws? then Message(InternalServerError, "Error fetching patient details.")
      else if found.value.None? then Message(NotFound, "Patient not found.")
      else Data(Ok, found.value.value)
  }

  // ---------------------------------------------------------------------
  // Registration

  /** createPatient: stores the patient under a new id and returns 1, with
      no uniqueness check of its own; 0, storing nothing, when persisting
      fails (a violated constraint of the entity, a database fault). */
  function CreatePatientOutcome(db: Db, p: Patient, storageOk: bool): (r: Step<int>)
    ensures r.result in {0, 1}
    ensures r.result == 1 <==> storageOk && PatientViolations(p) == []
    ensures r.result == 0 ==> r.db == db
    ensures r.result == 1 ==>
      r.db == db.(patients := db.patients + [p.(id := Some(db.nextPatientId))], nextPatientId := db.nextPatientId + 1)
  {
    if !storageOk || PatientViolations(p) != [] then Step(0, db)
    else Step(1, db.(patients := db.patients + [p.(id := Some(db.nextPatientId))], nextPatientId := db.nextPatientId + 1))
  }

  /** createPatient on the store. */
  method CreatePatient(store: Store, p: Patient, storageOk: bool) returns (r: int)
    modifies store
    ensures Step(r, store.Snapshot()) == CreatePatientOutcome(old(store.Snapshot()), p, storageOk)
  {
    if !storageOk || PatientViolations(p) != [] {
      return 0;
    }
    var _ := store.InsertPatient(p);
    return 1;
  }
}
