/** AppointmentService: booking, rescheduling and cancelling by the owning
    patient, a doctor's appointments of a day, and status changes. Each
    state-changing operation is given as the outcome it produces from a
    store; the methods that perform it on a Store follow. */
module AppointmentService {
  import opened Wrappers
  import opened Text
  import opened Times
  import opened Models
  import opened Database
  import opened Responses
  import opened AppointmentRepository
  import opened TokenService
  import opened Storage

  const BookedOk: int := 1

  const UpdatedMessage := "Appointment updated successfully."
  const NotFoundMessage := "Appointment not found."
  const UpdateForbiddenMessage := "Unauthorized: You can only update your own appointments."
  const UpdateErrorMessage := "Error updating appointment."
  const CancelledMessage := "Appointment cancelled successfully."
  const CancelForbiddenMessage := "Unauthorized action."
  const CancelErrorMessage := "Error cancelling appointment."

  /** bookAppointment: stores the appointment under a new id and returns 1,
      with no availability check; 0, storing nothing, when persisting fails
      (a violated entity constraint, a dangling reference, a database fault). */
  function BookAppointmentOutcome(db: Db, a: Appointment, env: Env, storageOk: bool): (r: Step<int>)
    ensures r.result in {0, 1}
    ensures r.result == 1 <==> storageOk && AppointmentViolations(a, env.now) == [] && ReferencesResolve(db, a)
    ensures r.result == 0 ==> r.db == db
    ensures r.result == 1 ==> r.db == Insert(db, a)
  {
    if !storageOk || AppointmentViolations(a, env.now) != [] || !ReferencesResolve(db, a) then Step(0, db)
    else Step(BookedOk, Insert(db, a))
  }

  /** updateAppointment: only the patient owning the appointment may move it.
      Success changes that appointment's time and nothing else; the
      availability guard is a constant true. Every other outcome leaves the
      store as it was. A new time is validated when the transaction
      commits, after the method returned, so a missing or past time makes
      the call throw instead of answering. Re-submitting the stored time
      leaves the entity clean: nothing is written and nothing validated,
      and the call answers success. */
  function UpdateAppointmentOutcome(db: Db, id: Option<nat>, newTime: Option<LocalDateTime>, token: Token, env: Env, storageOk: bool): (r: Step<Result<string>>)
    ensures r.result != Returns(UpdatedMessage) ==> r.db == db
    ensures id.None? ==> r.result == Returns(UpdateErrorMessage)
    ensures id.Some? && FindAppointmentById(db.appointments, id.value).None? ==> r.result == Returns(NotFoundMessage)
    ensures id.Some? && FindAppointmentById(db.appointments, id.value).Some?
      && FindAppointmentById(db.appointments, id.value).value.patient.Some?
      && FindAppointmentById(db.appointments, id.value).value.patient != GetPatientIdFromToken(db, token, env)
      ==> r.result == Returns(UpdateForbiddenMessage)
    ensures id.Some? && FindAppointmentById(db.appointments, id.value).Some?
      && FindAppointmentById(db.appointments, id.value).value.patient.None?
      ==> r.result == Returns(UpdateErrorMessage)
    ensures id.Some? && FindAppointmentById(db.appointments, id.value).Some?
      && FindAppointmentById(db.appointments, id.value).value.patient.Some?
      && FindAppointmentById(db.appointments, id.value).value.patient == GetPatientIdFromToken(db, token, env)
      && !storageOk
      ==> r.result == Returns(UpdateErrorMessage)
    ensures r.result == Returns(UpdatedMessage) <==>
      && id.Some? && FindAppointmentById(db.appointments, id.value).Some?
      && FindAppointmentById(db.appointments, id.value).value.patient.Some?
      && FindAppointmentById(db.appointments, id.value).value.patient == GetPatientIdFromToken(db, token, env)
      && storageOk
      && (|| newTime == FindAppointmentById(db.appointments, id.value).value.time
          || AppointmentViolations(FindAppointmentById(db.appointments, id.value).value.(time := newTime), env.now) == [])
    ensures r.result.Throws? <==>
      && id.Some? && FindAppointmentById(db.appointments, id.value).Some?
      && FindAppointmentById(db.appointments, id.value).value.patient.Some?
      && FindAppointmentById(db.appointments, id.value).value.patient == GetPatientIdFromToken(db, token, env)
      && storageOk
      && newTime != FindAppointmentById(db.appointments, id.value).value.time
      && AppointmentViolations(FindAppointmentById(db.appointments, id.value).value.(time := newTime), env.now) != []
    ensures r.result.Throws? ==> r.result.exception == "TransactionSystemException"
    ensures r.result == Returns(UpdatedMessage) && newTime == FindAppointmentById(db.appointments, id.value).value.time
      ==> r.db == db
    ensures r.result == Returns(UpdatedMessage) && newTime != FindAppointmentById(db.appointments, id.value).value.time
      ==> newTime.Some? && r.db == db.(appointments := UpdateTime(db.appointments, id.value, newTime.value))
  {
    var patientId := GetPatientIdFromToken(db, token, env);
    if id.None? then Step(Returns(UpdateErrorMessage), db)
    else
      var found := FindAppointmentById(db.appointments, id.value);
      if found.None? then Step(Returns(NotFoundMessage), db)
      else if found.value.patient.None? then Step(Returns(UpdateErrorMessage), db)
      else if found.value.patient != patientId then Step(Returns(UpdateForbiddenMessage), db)
      else if !storageOk then Step(Returns(UpdateErrorMessage), db)
      else if newTime == found.value.time then Step(Returns(UpdatedMessage), db)
      else
        var updated := found.value.(time := newTime);
        if AppointmentViolations(updated, env.now) != [] then Step(Throws("TransactionSystemException"), db)
        else Step(Returns(UpdatedMessage), db.(appointments := UpdateTime(db.appointments, id.value, newTime.value)))
  }

  /** cancelAppointment: only the owning patient may cancel, and cancelling
      deletes the appointment; every other outcome leaves the store as it was. */
  function CancelAppointmentOutcome(db: Db, id: nat, token: Token, env: Env, storageOk: bool): (r: Step<string>)
    ensures r.result != CancelledMessage ==> r.db == db
    ensures FindAppointmentById(db.appointments, id).None? ==> r.result == NotFoundMessage
    ensures FindAppointmentById(db.appointments, id).Some? && FindAppointmentById(db.appointments, id).value.patient.None?
      ==> r.result == CancelErrorMessage
    ensures FindAppointmentById(db.appointments, id).Some?
      && FindAppointmentById(db.appointments, id).value.patient.Some?
      && FindAppointmentById(db.appointments, id).value.patient == GetPatientIdFromToken(db, token, env)
      && !storageOk
      ==> r.result == CancelErrorMessage
    ensures FindAppointmentById(db.appointments, id).Some?
      && FindAppointmentById(db.appointments, id).value.patient.Some?
      && FindAppointmentById(db.appointments, id).value.patient != GetPatientIdFromToken(db, token, env)
      ==> r.result == CancelForbiddenMessage
    ensures r.result == CancelledMessage <==>
      && FindAppointmentById(db.appointments, id).Some?
      && FindAppointmentById(db.appointments, id).value.patient.Some?
      && FindAppointmentById(db.appointments, id).value.patient == GetPatientIdFromToken(db, token, env)
      && storageOk
    ensures r.result == CancelledMessage ==> r.db == db.(appointments := DeleteById(db.appointments, id))
  {
    var patientId := GetPatientIdFromToken(db, token, env);
    var found := FindAppointmentById(db.appointments, id);
    if found.None? then Step(NotFoundMessage, db)
    else if found.value.patient.None? then Step(CancelErrorMessage, db)
    else if found.value.patient != patientId then Step(CancelForbiddenMessage, db)
    else if !storageOk then Step(CancelErrorMessage, db)
    else Step(CancelledMessage, db.(appointments := DeleteById(db.appointments, id)))
  }

  /** A token resolving to no patient can neither move nor cancel anything:
      a stored owner id never equals null. */
  lemma NoPatientNoChange(db: Db, id: nat, newTime: Option<LocalDateTime>, token: Token, env: Env, storageOk: bool)
    requires GetPatientIdFromToken(db, token, env).None?
    ensures UpdateAppointmentOutcome(db, Some(id), newTime, token, env, storageOk).result != Returns(UpdatedMessage)
    ensures CancelAppointmentOutcome(db, id, token, env, storageOk).result != CancelledMessage
    ensures UpdateAppointmentOutcome(db, Some(id), newTime, token, env, storageOk).db == db
    ensures CancelAppointmentOutcome(db, id, token, env, storageOk).db == db
  {
  }

  /** The patient name narrows getAppointments unless it is null, "null" in
      any case, or blank. */
  predicate NameFilterApplies(patientName: Option<string>) {
    patientName.Some? && !EqualsIgnoreCase(patientName.value, "null") && Trim(patientName.value) != ""
  }

  /** getAppointments: the doctor's appointments starting on that date, of
      any status, narrowed to patients whose name contains the given one
      (ignoring case) when a name is given; the map's single key is
      "appointments". */
  function GetAppointments(db: Db, doctorId: nat, date: LocalDate, patientName: Option<string>): (r: map<string, seq<Appointment>>)
    ensures r.Keys == {"appointments"}
    ensures forall a :: a in r["appointments"] <==>
      && a in db.appointments && a.doctor == Some(doctorId) && a.time.Some? && a.time.value.date == date
      && (NameFilterApplies(patientName) ==> PatientNameMatches(db.patients, a, patientName.value))
  {
    forall a | a in db.appointments && a.time.Some?
      ensures TimeBetween(a, StartOfDay(date), EndOfDay(date)) <==> a.time.value.date == date
    {
      InDayWindowIff(a.time.value, date);
    }
    var rows := if NameFilterApplies(patientName) then
        FindByDoctorIdAndPatientNameContainingIgnoreCaseAndAppointmentTimeBetween(db, doctorId, patientName.value, StartOfDay(date), EndOfDay(date))
      else FindByDoctorIdAndAppointmentTimeBetween(db.appointments, doctorId, StartOfDay(date), EndOfDay(date));
    map["appointments" := rows]
  }

  /** changeStatus: updateStatus with any status, no transition check; a
      database fault escapes as an exception. */
  function ChangeStatusOutcome(db: Db, status: int, id: nat, storageOk: bool): (r: Result<Db>)
    ensures r.Throws? <==> !storageOk
    ensures r.Returns? ==> r.value == db.(appointments := UpdateStatus(db.appointments, status, id))
  {
    if !storageOk then Throws("DataAccessException")
    else Returns(db.(appointments := UpdateStatus(db.appointments, status, id)))
  }

  // ---------------------------------------------------------------------
  // The operations performed on a Store.

  /** bookAppointment on the store. */
  method BookAppointment(store: Store, a: Appointment, env: Env, storageOk: bool) returns (r: int)
    modifies store
    ensures Step(r, store.Snapshot()) == BookAppointmentOutcome(old(store.Snapshot()), a, env, storageOk)
  {
    if !storageOk || AppointmentViolations(a, env.now) != [] || !ReferencesResolve(store.Snapshot(), a) {
      return 0;
    }
    var _ := store.InsertAppointment(a);
    return BookedOk;
  }

  /** updateAppointment on the store. */
  method UpdateAppointment(store: Store, id: Option<nat>, newTime: Option<LocalDateTime>, token: Token, env: Env, storageOk: bool)
    returns (r: Result<string>)
    modifies store
    ensures Step(r, store.Snapshot()) == UpdateAppointmentOutcome(old(store.Snapshot()), id, newTime, token, env, storageOk)
  {
    var patientId := GetPatientIdFromToken(store.Snapshot(), token, env);
    if id.None? {
      return Returns(UpdateErrorMessage);
    }
    var found := FindAppointmentById(store.appointments, id.value);
    if found.None? {
      return Returns(NotFoundMessage);
    }
    if found.value.patient.None? {
      return Returns(UpdateErrorMessage);
    }
    if found.value.patient != patientId {
      return Returns(UpdateForbiddenMessage);
    }
    if !storageOk {
      return Returns(UpdateErrorMessage);
    }
    if newTime == found.value.time {
      return Returns(UpdatedMessage);
    }
    var updated := found.value.(time := newTime);
    if AppointmentViolations(updated, env.now) != [] {
      return Throws("TransactionSystemException");
    }
    store.SaveAppointmentTime(id.value, newTime.value);
    return Returns(UpdatedMessage);
  }

  /** cancelAppointment on the store. */
  method CancelAppointment(store: Store, id: nat, token: Token, env: Env, storageOk: bool) returns (r: string)
    modifies store
    ensures Step(r, store.Snapshot()) == CancelAppointmentOutcome(old(store.Snapshot()), id, token, env, storageOk)
  {
    var patientId := GetPatientIdFromToken(store.Snapshot(), token, env);
    var found := FindAppointmentById(store.appointments, id);
    if found.None? {
      return NotFoundMessage;
    }
    if found.value.patient.None? {
      return CancelErrorMessage;
    }
    if found.value.patient != patientId {
      return CancelForbiddenMessage;
    }
    if !storageOk {
      return CancelErrorMessage;
    }
    store.DeleteAppointment(id);
    return CancelledMessage;
  }

  /** changeStatus on the store: the new store, or the exception that
      escapes, leaving the store as it was. */
  method ChangeStatus(store: Store, status: int, id: nat, storageOk: bool) returns (r: Result<()>)
    modifies store
    ensures r.Throws? <==> ChangeStatusOutcome(old(store.Snapshot()), status, id, storageOk).Throws?
    ensures r.Throws? ==> store.Snapshot() == old(store.Snapshot())
    ensures r.Returns? ==> store.Snapshot() == ChangeStatusOutcome(old(store.Snapshot()), status, id, storageOk).value
  {
    if !storageOk {
      return Throws("DataAccessException");
    }
    store.SetAppointmentStatus(status, id);
    return Returns(());
  }
}
