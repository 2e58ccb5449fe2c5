/** AppointmentRepository: its finders as selections over the appointment
    table (joined with the doctor and patient tables where the query names
    them), and its modifying queries as functions from the old table to the
    new one. */
module AppointmentRepository {
  import opened Wrappers
  import opened Seqs
  import opened Text
  import opened Times
  import opened Models
  import opened Database

  /** The start time lies in [start, end]: BETWEEN, so a null time never does. */
  predicate TimeBetween(a: Appointment, start: LocalDateTime, end: LocalDateTime) {
    a.time.Some? && Between(a.time.value, start, end)
  }

  /** The row selector of findByDoctorIdAndAppointmentTimeBetween. */
  function DoctorAndWindow(doctorId: nat, start: LocalDateTime, end: LocalDateTime): Appointment -> bool {
    (a: Appointment) => a.doctor == Some(doctorId) && TimeBetween(a, start, end)
  }

  /** findByDoctorIdAndAppointmentTimeBetween: the doctor's appointments
      starting in [start, end], whatever their status. */
  function FindByDoctorIdAndAppointmentTimeBetween(
    appointments: seq<Appointment>, doctorId: nat, start: LocalDateTime, end: LocalDateTime): (r: seq<Appointment>)
    ensures forall a :: a in r <==> a in appointments && a.doctor == Some(doctorId) && TimeBetween(a, start, end)
  {
    Filter(appointments, DoctorAndWindow(doctorId, start, end))
  }

  /** LOWER(p.name) LIKE LOWER('%patientName%') for the appointment's patient;
      a missing patient or a null name never matches. */
  predicate PatientNameMatches(patients: seq<Patient>, a: Appointment, patientName: string) {
    && a.patient.Some?
    && var p := FindPatientById(patients, a.patient.value);
    && p.Some? && p.value.name.Some? && ContainsIgnoreCase(p.value.name.value, patientName)
  }

  function PatientNamed(patients: seq<Patient>, patientName: string): Appointment -> bool {
    (a: Appointment) => PatientNameMatches(patients, a, patientName)
  }

  /** The row selector of the patient-name variant. */
  function NameAndWindow(db: Db, doctorId: nat, patientName: string, start: LocalDateTime, end: LocalDateTime): Appointment -> bool {
    (a: Appointment) =>
      a.doctor == Some(doctorId) && TimeBetween(a, start, end) && PatientNameMatches(db.patients, a, patientName)
  }

  /** The patient-name variant: as above, and the patient's name contains
      the argument ignoring case. */
  function FindByDoctorIdAndPatientNameContainingIgnoreCaseAndAppointmentTimeBetween(
    db: Db, doctorId: nat, patientName: string, start: LocalDateTime, end: LocalDateTime): (r: seq<Appointment>)
    ensures forall a :: a in r <==>
      a in db.appointments && a.doctor == Some(doctorId) && TimeBetween(a, start, end)
      && PatientNameMatches(db.patients, a, patientName)
  {
    Filter(db.appointments, NameAndWindow(db, doctorId, patientName, start, end))
  }

  /** The patient-name variant selects, in order, the plain variant's rows
      whose patient name matches: it only ever narrows the day's list. */
  lemma NameVariantNarrows(db: Db, doctorId: nat, patientName: string, start: LocalDateTime, end: LocalDateTime)
    ensures FindByDoctorIdAndPatientNameContainingIgnoreCaseAndAppointmentTimeBetween(db, doctorId, patientName, start, end)
         == Filter(FindByDoctorIdAndAppointmentTimeBetween(db.appointments, doctorId, start, end),
                   PatientNamed(db.patients, patientName))
  {
    var p := DoctorAndWindow(doctorId, start, end);
    var q := PatientNamed(db.patients, patientName);
    var both := NameAndWindow(db, doctorId, patientName, start, end);
    FilterFilter(db.appointments, p, q, both);
    assert FindByDoctorIdAndAppointmentTimeBetween(db.appointments, doctorId, start, end) == Filter(db.appointments, p);
    assert FindByDoctorIdAndPatientNameContainingIgnoreCaseAndAppointmentTimeBetween(db, doctorId, patientName, start, end)
        == Filter(db.appointments, both);
  }

  /** findByPatientId. */
  function FindByPatientId(appointments: seq<Appointment>, patientId: nat): (r: seq<Appointment>)
    ensures forall a :: a in r <==> a in appointments && a.patient == Some(patientId)
  {
    Filter(appointments, (a: Appointment) => a.patient == Some(patientId))
  }

  /** Ascending order on start times, a null time first (as SQL orders NULL
      lowest). */
  predicate TimeNotAfter(a: Appointment, b: Appointment) {
    a.time.None? || (b.time.Some? && a.time.value.EpochSecond() <= b.time.value.EpochSecond())
  }

  ghost predicate SortedByTime(s: seq<Appointment>) {
    forall i, j :: 0 <= i < j < |s| ==> TimeNotAfter(s[i], s[j])
  }

  function InsertByTime(a: Appointment, s: seq<Appointment>): (r: seq<Appointment>)
    requires SortedByTime(s)
    ensures SortedByTime(r)
    ensures multiset(r) == multiset(s) + multiset{a}
  {
    if s == [] then [a]
    else if TimeNotAfter(a, s[0]) then [a] + s
    else
      var rest := InsertByTime(a, s[1..]);
      assert s == [s[0]] + s[1..];
      assert forall k :: 0 <= k < |rest| ==> TimeNotAfter(s[0], rest[k]) by {
        forall k | 0 <= k < |rest| ensures TimeNotAfter(s[0], rest[k]) {
          assert rest[k] in multiset(rest);
          assert rest[k] == a || rest[k] in s[1..];
        }
      }
      [s[0]] + rest
  }

  /** A stable insertion sort by start time. */
  function SortByTime(s: seq<Appointment>): (r: seq<Appointment>)
    ensures SortedByTime(r)
    ensures multiset(r) == multiset(s)
  {
    if s == [] then []
    else
      assert s == [s[0]] + s[1..];
      InsertByTime(s[0], SortByTime(s[1..]))
  }

  /** findByPatientIdAndStatusOrderByAppointmentTimeAsc: exactly the
      patient's appointments with that status, each as often as it is
      stored, in ascending time. A null patient id selects rows without a
      patient (a derived query compares with IS NULL). */
  function FindByPatientIdAndStatusOrderByAppointmentTimeAsc(
    appointments: seq<Appointment>, patientId: Option<nat>, status: int): (r: seq<Appointment>)
    ensures SortedByTime(r)
    ensures forall a :: multiset(r)[a] == (if a.patient == patientId && a.status == status then multiset(appointments)[a] else 0)
    ensures forall a :: a in r <==> a in appointments && a.patient == patientId && a.status == status
  {
    var p := (a: Appointment) => a.patient == patientId && a.status == status;
    var rows := Filter(appointments, p);
    var r := SortByTime(rows);
    forall a ensures multiset(r)[a] == if p(a) then multiset(appointments)[a] else 0 {
      FilterCounts(appointments, p, a);
    }
    assert forall a :: a in r <==> a in multiset(rows);
    r
  }

  /** The doctor of the appointment exists and LOWER(name) LIKE LOWER('%doctorName%'). */
  predicate DoctorNameMatches(doctors: seq<Doctor>, a: Appointment, doctorName: string) {
    && a.doctor.Some?
    && var d := FindDoctorById(doctors, a.doctor.value);
    && d.Some? && ContainsIgnoreCase(d.value.name, doctorName)
  }

  /** filterByDoctorNameAndPatientId: the patient's appointments whose
      doctor's name contains the argument ignoring case. `= :patientId` with
      null matches nothing. */
  function FilterByDoctorNameAndPatientId(db: Db, doctorName: string, patientId: Option<nat>): (r: seq<Appointment>)
    ensures patientId.None? ==> r == []
    ensures forall a :: a in r <==>
      a in db.appointments && patientId.Some? && a.patient == patientId && DoctorNameMatches(db.doctors, a, doctorName)
  {
    if patientId.None? then []
    else Filter(db.appointments, (a: Appointment) => a.patient == patientId && DoctorNameMatches(db.doctors, a, doctorName))
  }

  /** filterByDoctorNameAndPatientIdAndStatus: as above, and the status equals. */
  function FilterByDoctorNameAndPatientIdAndStatus(db: Db, doctorName: string, patientId: nat, status: int): (r: seq<Appointment>)
    ensures forall a :: a in r <==>
      a in db.appointments && a.patient == Some(patientId) && a.status == status && DoctorNameMatches(db.doctors, a, doctorName)
  {
    Filter(db.appointments, (a: Appointment) =>
      a.patient == Some(patientId) && a.status == status && DoctorNameMatches(db.doctors, a, doctorName))
  }

  /** updateStatus: the row with that id gets the new status; every other
      field and every other row stays as it was. */
  function UpdateStatus(appointments: seq<Appointment>, status: int, id: nat): (r: seq<Appointment>)
    ensures |r| == |appointments|
    ensures forall i :: 0 <= i < |r| ==>
      && r[i].id == appointments[i].id && r[i].doctor == appointments[i].doctor
      && r[i].patient == appointments[i].patient && r[i].time == appointments[i].time
      && r[i].status == (if appointments[i].id == Some(id) then status else appointments[i].status)
  {
    Map(appointments, (a: Appointment) => if a.id == Some(id) then a.(status := status) else a)
  }

  /** save of a stored appointment whose time was changed: the row with that
      id gets the new time, nothing else changes. */
  function UpdateTime(appointments: seq<Appointment>, id: nat, time: LocalDateTime): (r: seq<Appointment>)
    ensures |r| == |appointments|
    ensures forall i :: 0 <= i < |r| ==>
      && r[i].id == appointments[i].id && r[i].doctor == appointments[i].doctor
      && r[i].patient == appointments[i].patient && r[i].status == appointments[i].status
      && r[i].time == (if appointments[i].id == Some(id) then Some(time) else appointments[i].time)
  {
    Map(appointments, (a: Appointment) => if a.id == Some(id) then a.(time := Some(time)) else a)
  }

  /** deleteById: every row except the one with that id, in order. */
  function DeleteById(appointments: seq<Appointment>, id: nat): (r: seq<Appointment>)
    ensures forall a :: a in r <==> a in appointments && a.id != Some(id)
  {
    Filter(appointments, (a: Appointment) => a.id != Some(id))
  }

  /** deleteAllByDoctorId: exactly the rows of other doctors remain. */
  function DeleteAllByDoctorId(appointments: seq<Appointment>, doctorId: nat): (r: seq<Appointment>)
    ensures forall a :: a in r <==> a in appointments && a.doctor != Some(doctorId)
  {
    Filter(appointments, (a: Appointment) => a.doctor != Some(doctorId))
  }

  /** save of a new appointment: stored under the next id, at the end. */
  function Insert(db: Db, a: Appointment): (r: Db)
    ensures r.appointments == db.appointments + [a.(id := Some(db.nextAppointmentId))]
    ensures r.nextAppointmentId == db.nextAppointmentId + 1
    ensures r == db.(appointments := r.appointments, nextAppointmentId := r.nextAppointmentId)
  {
    db.(appointments := db.appointments + [a.(id := Some(db.nextAppointmentId))],
        nextAppointmentId := db.nextAppointmentId + 1)
  }

  /** updateStatus for an id no row has changes nothing. */
  lemma {:induction false} UpdateStatusAbsent(appointments: seq<Appointment>, status: int, id: nat)
    requires forall a :: a in appointments ==> a.id != Some(id)
    ensures UpdateStatus(appointments, status, id) == appointments
  {
    var r := UpdateStatus(appointments, status, id);
    forall i | 0 <= i < |r| ensures r[i] == appointments[i] {
      assert appointments[i] in appointments;
    }
  }

  /** After updateStatus, findById on that id reports the new status. */
  lemma {:induction false} UpdateStatusFound(appointments: seq<Appointment>, status: int, id: nat)
    requires FindAppointmentById(appointments, id).Some?
    ensures FindAppointmentById(UpdateStatus(appointments, status, id), id).Some?
    ensures FindAppointmentById(UpdateStatus(appointments, status, id), id).value.status == status
    ensures FindAppointmentById(UpdateStatus(appointments, status, id), id).value
         == FindAppointmentById(appointments, id).value.(status := status)
  {
    if appointments[0].id != Some(id) {
      UpdateStatusFound(appointments[1..], status, id);
      assert UpdateStatus(appointments, status, id)[1..] == UpdateStatus(appointments[1..], status, id);
    }
  }

  /** After deleteById, findById on that id finds nothing, and every other
      row is still there. */
  lemma DeleteByIdRemoves(appointments: seq<Appointment>, id: nat)
    ensures FindAppointmentById(DeleteById(appointments, id), id).None?
    ensures forall a :: a in appointments && a.id != Some(id) ==> a in DeleteById(appointments, id)
  {
  }
}
