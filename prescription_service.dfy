/** PrescriptionService: at most one prescription per appointment. A
    database fault is given as the message of the exception it raises. */
module PrescriptionService {
  import opened Wrappers
  import opened Models
  import opened Database
  import opened Responses
  import opened Storage

  const DuplicateMessage := "Prescription already exists for this appointment."
  const SavedMessage := "Prescription saved"

  /** No two stored prescriptions are for the same appointment. */
  ghost predicate OnePerAppointment(prescriptions: seq<Prescription>) {
    forall i, j :: 0 <= i < j < |prescriptions| ==> prescriptions[i].appointmentId != prescriptions[j].appointmentId
  }

  /** savePrescription: a bad request, storing nothing, when the
      appointment already has a prescription; otherwise the prescription is
      appended and the answer is CREATED. A fault answers 500 with the
      exception's message and stores nothing. */
  function SavePrescriptionOutcome(db: Db, p: Prescription, fault: Option<string>): (r: Step<Reply<()>>)
    ensures r.result.Message?
    ensures r.result.status == Created <==>
      fault.None? && forall q :: q in db.prescriptions ==> q.appointmentId != p.appointmentId
    ensures r.result.status == Created ==> r.result.text == SavedMessage && r.db == db.(prescriptions := db.prescriptions + [p])
    ensures r.result.status != Created ==> r.db == db
    ensures fault.None? && (exists q :: q in db.prescriptions && q.appointmentId == p.appointmentId) ==>
      r.result == Message(BadRequest, DuplicateMessage)
    ensures fault.Some? ==> r.result == Message(InternalServerError, "Error saving prescription: " + fault.value)
  {
    if fault.Some? then Step(Message(InternalServerError, "Error saving prescription: " + fault.value), db)
    else if FindPrescriptionsByAppointmentId(db.prescriptions, p.appointmentId) != [] then
      Step(Message(BadRequest, DuplicateMessage), db)
    else Step(Message(Created, SavedMessage), db.(prescriptions := db.prescriptions + [p]))
  }

  /** Saving keeps at most one prescription per appointment. */
  lemma {:induction false} SaveKeepsOnePerAppointment(db: Db, p: Prescription, fault: Option<string>)
    requires OnePerAppointment(db.prescriptions)
    ensures OnePerAppointment(SavePrescriptionOutcome(db, p, fault).db.prescriptions)
  {
    var r := SavePrescriptionOutcome(db, p, fault);
    if r.result.status == Created {
      var ps := r.db.prescriptions;
      forall i, j | 0 <= i < j < |ps| ensures ps[i].appointmentId != ps[j].appointmentId {
        if j == |ps| - 1 {
          assert ps[i] == db.prescriptions[i];
          assert ps[i] in db.prescriptions;
        }
      }
    }
  }

  /** Once an appointment's prescription is saved, saving another one for
      it is refused. */
  lemma SecondSaveRefused(db: Db, p: Prescription, q: Prescription)
    requires SavePrescriptionOutcome(db, p, None).result.status == Created
    requires q.appointmentId == p.appointmentId
    ensures SavePrescriptionOutcome(SavePrescriptionOutcome(db, p, None).db, q, None).result == Message(BadRequest, DuplicateMessage)
  {
    assert p in SavePrescriptionOutcome(db, p, None).db.prescriptions;
  }

  /** getPrescription: every prescription of the appointment. */
  function GetPrescription(db: Db, appointmentId: nat, fault: Option<string>): (r: Reply<seq<Prescription>>)
    ensures r.Data? <==> fault.None?
    ensures r.Data? ==> r.status == Ok && forall p :: p in r.value <==> p in db.prescriptions && p.appointmentId == appointmentId
    ensures r.Message? ==> r == Message(InternalServerError, "Error fetching prescription: " + fault.value)
  {
    if fault.Some? then Message(InternalServerError, "Error fetching prescription: " + fault.value)
    else Data(Ok, FindPrescriptionsByAppointmentId(db.prescriptions, appointmentId))
  }

  /** savePrescription on the store. */
  method SavePrescription(store: Store, p: Prescription, fault: Option<string>) returns (r: Reply<()>)
    modifies store
    ensures Step(r, store.Snapshot()) == SavePrescriptionOutcome(old(store.Snapshot()), p, fault)
  {
    if fault.Some? {
      return Message(InternalServerError, "Error saving prescription: " + fault.value);
    }
    var existing := FindPrescriptionsByAppointmentId(store.prescriptions, p.appointmentId);
    if existing != [] {
      return Message(BadRequest, DuplicateMessage);
    }
    store.InsertPrescription(p);
    return Message(Created, SavedMessage);
  }
}
