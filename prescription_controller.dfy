/** PrescriptionController: a doctor completes an appointment by saving
    its prescription, and reads an appointment's prescriptions. */
module PrescriptionController {
  import opened Wrappers
  import opened Models
  import opened Database
  import opened Responses
  import opened AppointmentRepository
  import opened TokenService
  import opened AppointmentService
  import opened PrescriptionService

  /** savePrescription: for a valid doctor token the appointment's status
      is set to Completed in a transaction of its own, and only then is the
      prescription saved, so the status stays changed when the save is
      refused. `statusOk` is false when the status update throws; that
      exception escapes and nothing is saved. */
  function SavePrescription(db: Db, p: Prescription, token: Token, env: Env, statusOk: bool, fault: Option<string>): (r: Step<Reply<()>>)
    ensures !ValidateToken(db, token, "doctor", env) ==> r == Step(Message(Unauthorized, "Unauthorized access."), db)
    ensures ValidateToken(db, token, "doctor", env) && statusOk ==>
      && r.db.appointments == UpdateStatus(db.appointments, StatusCompleted, p.appointmentId)
      && r == SavePrescriptionOutcome(db.(appointments := r.db.appointments), p, fault)
    ensures ValidateToken(db, token, "doctor", env) && !statusOk ==>
      r.db == db && r.result.status == InternalServerError
    ensures r.db.prescriptions != db.prescriptions ==> ValidateToken(db, token, "doctor", env) && r.result.status == Created
  {
    if !ValidateToken(db, token, "doctor", env) then Step(Message(Unauthorized, "Unauthorized access."), db)
    else
      var completed := ChangeStatusOutcome(db, StatusCompleted, p.appointmentId, statusOk);
      if completed.Throws? then Step(Message(InternalServerError, completed.exception), db)
      else SavePrescriptionOutcome(completed.value, p, fault)
  }

  /** There is no ownership check: any two tokens that pass the doctor
      check get the same outcome. */
  lemma AnyDoctorMayComplete(db: Db, p: Prescription, t1: Token, t2: Token, env: Env, statusOk: bool, fault: Option<string>)
    requires ValidateToken(db, t1, "doctor", env) && ValidateToken(db, t2, "doctor", env)
    ensures SavePrescription(db, p, t1, env, statusOk, fault) == SavePrescription(db, p, t2, env, statusOk, fault)
  {
  }

  /** A refused duplicate still marks the appointment Completed. */
  lemma DuplicateStillCompletes(db: Db, p: Prescription, token: Token, env: Env)
    requires ValidateToken(db, token, "doctor", env)
    requires exists q :: q in db.prescriptions && q.appointmentId == p.appointmentId
    ensures SavePrescription(db, p, token, env, true, None).result == Message(BadRequest, DuplicateMessage)
    ensures SavePrescription(db, p, token, env, true, None).db.appointments == UpdateStatus(db.appointments, StatusCompleted, p.appointmentId)
  {
  }

  /** getPrescription: only for a valid doctor token. */
  function GetPrescription(db: Db, appointmentId: nat, token: Token, env: Env, fault: Option<string>): (r: Reply<seq<Prescription>>)
    ensures !ValidateToken(db, token, "doctor", env) ==> r == Message(Unauthorized, "Unauthorized access.")
    ensures r.Data? ==> ValidateToken(db, token, "doctor", env) && r.status == Ok
    ensures r.Data? ==> forall q :: q in r.value <==> q in db.prescriptions && q.appointmentId == appointmentId
    ensures ValidateToken(db, token, "doctor", env) ==> r == PrescriptionService.GetPrescription(db, appointmentId, fault)
  {
    if !ValidateToken(db, token, "doctor", env) then Message(Unauthorized, "Unauthorized access.")
    else PrescriptionService.GetPrescription(db, appointmentId, fault)
  }
}
