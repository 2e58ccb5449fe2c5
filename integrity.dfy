/** The store's integrity (Database.Valid: issued and unique ids, stored
    entities satisfying their constraints, appointments referring to stored
    doctors and patients) is kept by every operation that changes the store. */
module Integrity {
  import opened Wrappers
  import opened Seqs
  import opened Models
  import opened Database
  import opened DoctorRepository
  import opened AppointmentRepository
  import opened TokenService
  import opened AppointmentService
  import opened DoctorService
  import opened PatientService

  /** Appending a row whose key no row has keeps the keys distinct. */
  lemma AppendFreshKey<T, K>(s: seq<T>, x: T, key: T -> K)
    requires DistinctKeys(s, key)
    requires forall y :: y in s ==> key(y) != key(x)
    ensures DistinctKeys(s + [x], key)
  {
    var r := s + [x];
    forall i, j | 0 <= i < |r| && 0 <= j < |r| && i != j ensures key(r[i]) != key(r[j]) {
      if i == |s| {
        assert r[j] == s[j] && s[j] in s;
      } else if j == |s| {
        assert r[i] == s[i] && s[i] in s;
      }
    }
  }

  /** Rewriting every row with a key-preserving function keeps the keys distinct. */
  lemma MapKeepsKeysDistinct<T>(s: seq<T>, f: T -> T, key: T -> Option<nat>)
    requires DistinctKeys(s, key)
    requires forall x :: key(f(x)) == key(x)
    ensures DistinctKeys(Map(s, f), key)
  {
    var r := Map(s, f);
    forall i, j | 0 <= i < |r| && 0 <= j < |r| && i != j ensures key(r[i]) != key(r[j]) {
      assert key(r[i]) == key(s[i]) && key(r[j]) == key(s[j]);
    }
  }

  /** Appending an appointment whose doctor, patient and time are set and
      whose references resolve keeps the store valid. */
  lemma InsertKeepsValid(db: Db, a: Appointment)
    requires Valid(db)
    requires a.time.Some? && ReferencesResolve(db, a)
    ensures Valid(Insert(db, a))
  {
    var row := a.(id := Some(db.nextAppointmentId));
    assert StoredAppointment(db, row) by {
      assert FindDoctorById(db.doctors, a.doctor.value).value in db.doctors;
      assert FindPatientById(db.patients, a.patient.value).value in db.patients;
    }
    AppendRowStored(db, row);
    AppendFreshKey(db.appointments, row, AppointmentKey);
    AppointmentRowsKeepValid(db, db.appointments + [row], db.nextAppointmentId + 1);
  }

  /** The rows after an append: the old ones, and one more stored row whose
      id is the counter. */
  lemma AppendRowStored(db: Db, row: Appointment)
    requires forall x :: x in db.appointments ==> x.id.Some? && x.id.value < db.nextAppointmentId && StoredAppointment(db, x)
    requires row.id == Some(db.nextAppointmentId) && StoredAppointment(db, row)
    ensures forall x :: x in db.appointments + [row] ==>
      x.id.Some? && x.id.value < db.nextAppointmentId + 1 && StoredAppointment(db, x)
  {
  }

  /** A successful booking keeps the store valid: the new row gets the next
      id, and the booking went through only with a doctor, a patient and a
      time set and both references resolving. */
  lemma BookKeepsValid(db: Db, a: Appointment, env: Env, storageOk: bool)
    requires Valid(db)
    ensures Valid(BookAppointmentOutcome(db, a, env, storageOk).db)
  {
    if BookAppointmentOutcome(db, a, env, storageOk).result == 1 {
      InsertKeepsValid(db, a);
    }
  }

  /** Rewriting the appointment rows one by one, keeping each row's id,
      doctor and patient and leaving a time set, keeps the store valid. */
  lemma RowwiseKeepsValid(db: Db, rows: seq<Appointment>)
    requires Valid(db)
    requires |rows| == |db.appointments|
    requires forall i :: 0 <= i < |rows| ==>
      && rows[i].id == db.appointments[i].id && rows[i].doctor == db.appointments[i].doctor
      && rows[i].patient == db.appointments[i].patient && (db.appointments[i].time.Some? ==> rows[i].time.Some?)
    ensures Valid(db.(appointments := rows))
  {
    RowwiseRowsStored(db, rows);
    AppointmentRowsKeepValid(db, rows, db.nextAppointmentId);
  }

  /** The row-by-row part of RowwiseKeepsValid, apart from the rest of Valid. */
  lemma RowwiseRowsStored(db: Db, rows: seq<Appointment>)
    requires forall a :: a in db.appointments ==> a.id.Some? && a.id.value < db.nextAppointmentId && StoredAppointment(db, a)
    requires DistinctKeys(db.appointments, AppointmentKey)
    requires |rows| == |db.appointments|
    requires forall i :: 0 <= i < |rows| ==>
      && rows[i].id == db.appointments[i].id && rows[i].doctor == db.appointments[i].doctor
      && rows[i].patient == db.appointments[i].patient && (db.appointments[i].time.Some? ==> rows[i].time.Some?)
    ensures forall x :: x in rows ==> x.id.Some? && x.id.value < db.nextAppointmentId && StoredAppointment(db, x)
    ensures DistinctKeys(rows, AppointmentKey)
  {
    forall x | x in rows
      ensures x.id.Some? && x.id.value < db.nextAppointmentId && StoredAppointment(db, x)
    {
      var i :| 0 <= i < |rows| && rows[i] == x;
      assert db.appointments[i] in db.appointments;
    }
    forall i, j | 0 <= i < |rows| && 0 <= j < |rows| && i != j
      ensures AppointmentKey(rows[i]) != AppointmentKey(rows[j])
    {
      assert AppointmentKey(db.appointments[i]) != AppointmentKey(db.appointments[j]);
    }
  }

  /** Valid constrains the appointment table only through its rows, the
      distinctness of their keys and the id counter above them. */
  lemma AppointmentRowsKeepValid(db: Db, rows: seq<Appointment>, next: nat)
    requires Valid(db) && db.nextAppointmentId <= next
    requires forall x :: x in rows ==> x.id.Some? && x.id.value < next && StoredAppointment(db, x)
    requires DistinctKeys(rows, AppointmentKey)
    ensures Valid(db.(appointments := rows, nextAppointmentId := next))
  {
    var after := db.(appointments := rows, nextAppointmentId := next);
    forall x | x in rows ensures StoredAppointment(after, x) {
      assert StoredAppointment(db, x);
    }
  }

  /** Moving an appointment keeps the store valid: ids, doctors and
      patients stay, and the new time is set. */
  lemma UpdateKeepsValid(db: Db, id: Option<nat>, newTime: Option<Times.LocalDateTime>, token: Token, env: Env, storageOk: bool)
    requires Valid(db)
    ensures Valid(UpdateAppointmentOutcome(db, id, newTime, token, env, storageOk).db)
  {
    var r := UpdateAppointmentOutcome(db, id, newTime, token, env, storageOk);
    if r.result == Returns(UpdatedMessage) && r.db != db {
      RowwiseKeepsValid(db, UpdateTime(db.appointments, id.value, newTime.value));
    }
  }

  /** Deleting appointment rows keeps the store valid: nothing refers to
      appointments. */
  lemma DeleteByIdKeepsValid(db: Db, id: nat)
    requires Valid(db)
    ensures Valid(db.(appointments := DeleteById(db.appointments, id)))
  {
    FilterKeepsKeysDistinct(db.appointments, (a: Appointment) => a.id != Some(id), AppointmentKey);
  }

  /** Cancelling keeps the store valid. */
  lemma CancelKeepsValid(db: Db, id: nat, token: Token, env: Env, storageOk: bool)
    requires Valid(db)
    ensures Valid(CancelAppointmentOutcome(db, id, token, env, storageOk).db)
  {
    if CancelAppointmentOutcome(db, id, token, env, storageOk).result == CancelledMessage {
      DeleteByIdKeepsValid(db, id);
    }
  }

  /** A status change keeps the store valid, whatever the status. */
  lemma ChangeStatusKeepsValid(db: Db, status: int, id: nat, storageOk: bool)
    requires Valid(db)
    ensures ChangeStatusOutcome(db, status, id, storageOk).Returns? ==> Valid(ChangeStatusOutcome(db, status, id, storageOk).value)
  {
    if storageOk {
      RowwiseKeepsValid(db, UpdateStatus(db.appointments, status, id));
    }
  }

  /** Registering a patient keeps the store valid: the row gets the next
      id and was stored only when it met the entity's constraints. */
  lemma CreatePatientKeepsValid(db: Db, p: Patient, storageOk: bool)
    requires Valid(db)
    ensures Valid(CreatePatientOutcome(db, p, storageOk).db)
  {
    var r := CreatePatientOutcome(db, p, storageOk);
    if r.result == 1 {
      var row := p.(id := Some(db.nextPatientId));
      AppendFreshKey(db.patients, row, PatientKey);
      assert r.db.patients == db.patients + [row];
      forall x | x in r.db.appointments ensures StoredAppointment(r.db, x) {
        var pid := x.patient.value;
        var q :| q in db.patients && q.id == Some(pid);
        assert q in r.db.patients;
      }
    }
  }

  /** Adding a doctor keeps the store valid. */
  lemma SaveDoctorKeepsValid(db: Db, doctor: Doctor, storageOk: bool)
    requires Valid(db)
    ensures Valid(SaveDoctorOutcome(db, doctor, storageOk).db)
  {
    var r := SaveDoctorOutcome(db, doctor, storageOk);
    if r.result == 1 {
      var row := NewDoctorRow(db, doctor);
      AppendFreshKey(db.doctors, row, DoctorKey);
      assert r.db.doctors == db.doctors + [row];
      forall x | x in r.db.appointments ensures StoredAppointment(r.db, x) {
        var did := x.doctor.value;
        var d :| d in db.doctors && d.id == Some(did);
        assert d in r.db.doctors;
      }
    }
  }

  /** Updating a doctor keeps the store valid: the stored row keeps its id. */
  lemma UpdateDoctorKeepsValid(db: Db, doctor: Doctor, storageOk: bool)
    requires Valid(db)
    ensures Valid(UpdateDoctorOutcome(db, doctor, storageOk).db)
  {
    var r := UpdateDoctorOutcome(db, doctor, storageOk);
    if r.result == 1 {
      var existing := FindDoctorById(db.doctors, doctor.id.value).value;
      var row := UpdatedDoctor(existing, doctor);
      var f := (x: Doctor) => if x.id == row.id then row else x;
      assert r.db.doctors == Map(db.doctors, f);
      MapKeepsKeysDistinct(db.doctors, f, DoctorKey);
      forall x | x in r.db.doctors ensures x.id.Some? && x.id.value < r.db.nextDoctorId {
        var i :| 0 <= i < |r.db.doctors| && r.db.doctors[i] == x;
        assert db.doctors[i] in db.doctors;
      }
      forall x | x in r.db.appointments ensures StoredAppointment(r.db, x) {
        var did := x.doctor.value;
        var i :| 0 <= i < |db.doctors| && db.doctors[i].id == Some(did);
        assert r.db.doctors[i].id == Some(did);
      }
    }
  }

  /** Deleting a doctor keeps the store valid: the doctor's appointments go
      with it, so no appointment is left referring to a missing doctor. */
  lemma DeleteDoctorKeepsValid(db: Db, id: Option<nat>, storageOk: bool)
    requires Valid(db)
    ensures Valid(DeleteDoctorOutcome(db, id, storageOk).db)
  {
    var r := DeleteDoctorOutcome(db, id, storageOk);
    if r.result == 1 {
      FilterKeepsKeysDistinct(db.doctors, OtherDoctor(id.value), DoctorKey);
      FilterKeepsKeysDistinct(db.appointments, (a: Appointment) => a.doctor != Some(id.value), AppointmentKey);
      assert r.db.appointments == DeleteAllByDoctorId(db.appointments, id.value);
      assert r.db.doctors == Filter(db.doctors, OtherDoctor(id.value));
      forall x | x in r.db.appointments ensures StoredAppointment(r.db, x) {
        var d :| d in db.doctors && d.id == x.doctor;
        assert d in r.db.doctors;
      }
    }
  }
}
