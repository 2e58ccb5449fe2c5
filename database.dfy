/** The relational store behind the repositories, as one value: every table
    in insertion order plus the identity counters that hand out new ids.
    Also the plain key lookups of PatientRepository, AdminRepository and
    PrescriptionRepository, and the by-id lookups every JpaRepository has. */
module Database {
  import opened Wrappers
  import opened Seqs
  import opened Models

  datatype Db = Db(
    doctors: seq<Doctor>,
    patients: seq<Patient>,
    admins: seq<Admin>,
    appointments: seq<Appointment>,
    prescriptions: seq<Prescription>,
    nextDoctorId: nat,
    nextPatientId: nat,
    nextAppointmentId: nat)

  function DoctorKey(d: Doctor): Option<nat> { d.id }
  function PatientKey(p: Patient): Option<nat> { p.id }
  function AppointmentKey(a: Appointment): Option<nat> { a.id }

  ghost predicate HasDoctor(db: Db, id: nat) {
    exists d :: d in db.doctors && d.id == Some(id)
  }

  ghost predicate HasPatient(db: Db, id: nat) {
    exists p :: p in db.patients && p.id == Some(id)
  }

  /** A stored appointment: doctor, patient and time set (the entity's
      constraints), and both references resolve (the foreign keys). */
  ghost predicate StoredAppointment(db: Db, a: Appointment) {
    && a.doctor.Some? && a.patient.Some? && a.time.Some?
    && HasDoctor(db, a.doctor.value) && HasPatient(db, a.patient.value)
  }

  /** Integrity of the store: every row has an id issued by its table's
      counter, ids are unique per table, stored patients satisfy their
      constraints and appointments satisfy theirs. */
  ghost predicate Valid(db: Db) {
    && (forall d :: d in db.doctors ==> d.id.Some? && d.id.value < db.nextDoctorId)
    && (forall p :: p in db.patients ==> p.id.Some? && p.id.value < db.nextPatientId && PatientViolations(p) == [])
    && (forall a :: a in db.appointments ==> a.id.Some? && a.id.value < db.nextAppointmentId && StoredAppointment(db, a))
    && DistinctKeys(db.doctors, DoctorKey)
    && DistinctKeys(db.patients, PatientKey)
    && DistinctKeys(db.appointments, AppointmentKey)
  }

  /** The empty store: a fresh database. */
  function EmptyDb(): (db: Db)
    ensures Valid(db)
    ensures db.doctors == [] && db.patients == [] && db.appointments == [] && db.prescriptions == []
  {
    Db([], [], [], [], [], 0, 0, 0)
  }

  /** The outcome of a single-result finder: no row gives null, one row gives
      that row, more than one throws. */
  function SingleResult<T>(rows: seq<T>): (r: Result<Option<T>>)
    ensures r.Returns? && r.value.None? <==> |rows| == 0
    ensures r.Returns? && r.value.Some? <==> |rows| == 1
    ensures r.Returns? && r.value.Some? ==> r.value.value == rows[0]
    ensures r.Throws? <==> |rows| >= 2
  {
    if |rows| == 0 then Returns(None)
    else if |rows| == 1 then Returns(Some(rows[0]))
    else Throws("IncorrectResultSizeDataAccessException")
  }

  /** A single-result finder whose selected rows all share one key value
      never meets two rows while that key is unique in the table. */
  lemma SingleResultOnUniqueKey<T(!new), K>(rows: seq<T>, p: T -> bool, key: T -> K, k: K)
    requires DistinctKeys(rows, key)
    requires forall x :: p(x) ==> key(x) == k
    ensures SingleResult(Filter(rows, p)).Returns?
  {
    FilterKeepsKeysDistinct(rows, p, key);
    DistinctKeysFirstTwo(Filter(rows, p), key);
  }

  function PatientEmail(p: Patient): Option<string> { p.email }
  function AdminUsername(a: Admin): Option<string> { a.username }

  /** findById on the doctor table. */
  function FindDoctorById(doctors: seq<Doctor>, id: nat): (r: Option<Doctor>)
    ensures r.Some? ==> r.value in doctors && r.value.id == Some(id)
    ensures r.None? <==> forall d :: d in doctors ==> d.id != Some(id)
  {
    if doctors == [] then None
    else if doctors[0].id == Some(id) then Some(doctors[0])
    else FindDoctorById(doctors[1..], id)
  }

  /** findById on the patient table. */
  function FindPatientById(patients: seq<Patient>, id: nat): (r: Option<Patient>)
    ensures r.Some? ==> r.value in patients && r.value.id == Some(id)
    ensures r.None? <==> forall p :: p in patients ==> p.id != Some(id)
  {
    if patients == [] then None
    else if patients[0].id == Some(id) then Some(patients[0])
    else FindPatientById(patients[1..], id)
  }

  /** findById on the appointment table. */
  function FindAppointmentById(appointments: seq<Appointment>, id: nat): (r: Option<Appointment>)
    ensures r.Some? ==> r.value in appointments && r.value.id == Some(id)
    ensures r.None? <==> forall a :: a in appointments ==> a.id != Some(id)
  {
    if appointments == [] then None
    else if appointments[0].id == Some(id) then Some(appointments[0])
    else FindAppointmentById(appointments[1..], id)
  }

  /** Both references of the appointment name stored rows (the foreign keys). */
  predicate ReferencesResolve(db: Db, a: Appointment) {
    && a.doctor.Some? && FindDoctorById(db.doctors, a.doctor.value).Some?
    && a.patient.Some? && FindPatientById(db.patients, a.patient.value).Some?
  }

  /** With unique ids, the row findById returns is the only row with that id. */
  lemma {:induction false} FindAppointmentByIdUnique(appointments: seq<Appointment>, id: nat, a: Appointment)
    requires DistinctKeys(appointments, AppointmentKey)
    requires a in appointments && a.id == Some(id)
    ensures FindAppointmentById(appointments, id) == Some(a)
  {
    var k :| 0 <= k < |appointments| && appointments[k] == a;
    if k != 0 {
      assert appointments[0].id != Some(id) by {
        assert AppointmentKey(appointments[0]) != AppointmentKey(appointments[k]);
      }
      var tail := appointments[1..];
      assert DistinctKeys(tail, AppointmentKey) by {
        forall i, j | 0 <= i < |tail| && 0 <= j < |tail| && i != j
          ensures AppointmentKey(tail[i]) != AppointmentKey(tail[j])
        {
          assert tail[i] == appointments[i + 1] && tail[j] == appointments[j + 1];
        }
      }
      assert tail[k - 1] == a;
      FindAppointmentByIdUnique(tail, id, a);
    }
  }

  /** PatientRepository.findByEmail: a derived query, so a null email
      selects the rows whose email is null. */
  function FindPatientByEmail(patients: seq<Patient>, email: Option<string>): (r: Result<Option<Patient>>)
    ensures r.Returns? && r.value.None? <==> forall p :: p in patients ==> p.email != email
    ensures r.Returns? && r.value.Some? ==> r.value.value in patients && r.value.value.email == email
    ensures r.Returns? && r.value.Some? ==> forall p :: p in patients && p.email == email ==> p == r.value.value
    ensures r.Throws? <==> exists i, j :: 0 <= i < j < |patients| && patients[i].email == email && patients[j].email == email
  {
    var rows := Filter(patients, (p: Patient) => p.email == email);
    assert rows != [] ==> rows[0] in rows;
    FilterAtLeastTwo(patients, (p: Patient) => p.email == email);
    SingleResult(rows)
  }

  /** While patient emails are unique, findByEmail never meets two rows. */
  lemma FindPatientByEmailReturns(patients: seq<Patient>, email: Option<string>)
    requires DistinctKeys(patients, PatientEmail)
    ensures FindPatientByEmail(patients, email).Returns?
  {
    SingleResultOnUniqueKey(patients, (p: Patient) => p.email == email, PatientEmail, email);
  }

  /** PatientRepository.findByEmailOrPhone: the rows matching the email or
      the phone (each null argument selects null fields). */
  function FindPatientByEmailOrPhone(patients: seq<Patient>, email: Option<string>, phone: Option<string>): (r: Result<Option<Patient>>)
    ensures r.Returns? && r.value.None? <==> forall p :: p in patients ==> p.email != email && p.phone != phone
    ensures r.Returns? && r.value.Some? ==>
      r.value.value in patients && (r.value.value.email == email || r.value.value.phone == phone)
    ensures r.Throws? <==>
      exists i, j :: 0 <= i < j < |patients|
        && (patients[i].email == email || patients[i].phone == phone) && (patients[j].email == email || patients[j].phone == phone)
  {
    var rows := Filter(patients, (p: Patient) => p.email == email || p.phone == phone);
    assert rows != [] ==> rows[0] in rows;
    FilterAtLeastTwo(patients, (p: Patient) => p.email == email || p.phone == phone);
    SingleResult(rows)
  }

  /** AdminRepository.findByUsername: a derived query, so a null username
      selects the rows whose username is null. */
  function FindAdminByUsername(admins: seq<Admin>, username: Option<string>): (r: Result<Option<Admin>>)
    ensures r.Returns? && r.value.None? <==> forall a :: a in admins ==> a.username != username
    ensures r.Returns? && r.value.Some? ==> r.value.value in admins && r.value.value.username == username
    ensures r.Returns? && r.value.Some? ==> forall a :: a in admins && a.username == username ==> a == r.value.value
    ensures r.Throws? <==> exists i, j :: 0 <= i < j < |admins| && admins[i].username == username && admins[j].username == username
  {
    var rows := Filter(admins, (a: Admin) => a.username == username);
    assert rows != [] ==> rows[0] in rows;
    FilterAtLeastTwo(admins, (a: Admin) => a.username == username);
    SingleResult(rows)
  }

  /** While usernames are unique, findByUsername never meets two rows. */
  lemma FindAdminByUsernameReturns(admins: seq<Admin>, username: Option<string>)
    requires DistinctKeys(admins, AdminUsername)
    ensures FindAdminByUsername(admins, username).Returns?
  {
    SingleResultOnUniqueKey(admins, (a: Admin) => a.username == username, AdminUsername, username);
  }

  /** PrescriptionRepository.findByAppointmentId: every prescription of the
      appointment, in stored order. */
  function FindPrescriptionsByAppointmentId(prescriptions: seq<Prescription>, appointmentId: nat): (r: seq<Prescription>)
    ensures forall p :: p in r <==> p in prescriptions && p.appointmentId == appointmentId
    ensures r == [] <==> forall p :: p in prescriptions ==> p.appointmentId != appointmentId
  {
    var rows := Filter(prescriptions, (p: Prescription) => p.appointmentId == appointmentId);
    assert rows != [] ==> rows[0] in rows;
    rows
  }
}
