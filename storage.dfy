/** The shared database as a mutable object: each table is a field the
    repository operations reassign, next to the identity counters. Its
    `Snapshot` is the `Db` value the outcome functions of the services
    are stated on. */
module Storage {
  import opened Wrappers
  import opened Seqs
  import opened Times
  import opened Models
  import opened Database
  import opened DoctorRepository
  import opened AppointmentRepository

  class Store {
    var doctors: seq<Doctor>
    var patients: seq<Patient>
    var admins: seq<Admin>
    var appointments: seq<Appointment>
    var prescriptions: seq<Prescription>
    var nextDoctorId: nat
    var nextPatientId: nat
    var nextAppointmentId: nat

    function Snapshot(): Db
      reads this
    {
      Db(doctors, patients, admins, appointments, prescriptions, nextDoctorId, nextPatientId, nextAppointmentId)
    }

    constructor(db: Db)
      ensures Snapshot() == db
    {
      doctors, patients, admins := db.doctors, db.patients, db.admins;
      appointments, prescriptions := db.appointments, db.prescriptions;
      nextDoctorId, nextPatientId, nextAppointmentId := db.nextDoctorId, db.nextPatientId, db.nextAppointmentId;
    }

    /** AppointmentRepository.save of a new appointment. */
    method InsertAppointment(a: Appointment) returns (id: nat)
      modifies this`appointments, this`nextAppointmentId
      ensures id == old(nextAppointmentId)
      ensures Snapshot() == Insert(old(Snapshot()), a)
    {
      id := nextAppointmentId;
      appointments := appointments + [a.(id := Some(id))];
      nextAppointmentId := nextAppointmentId + 1;
    }

    /** AppointmentRepository.save of a stored appointment with a new time. */
    method SaveAppointmentTime(id: nat, time: LocalDateTime)
      modifies this`appointments
      ensures Snapshot() == old(Snapshot()).(appointments := UpdateTime(old(appointments), id, time))
    {
      appointments := UpdateTime(appointments, id, time);
    }

    /** AppointmentRepository.deleteById. */
    method DeleteAppointment(id: nat)
      modifies this`appointments
      ensures Snapshot() == old(Snapshot()).(appointments := DeleteById(old(appointments), id))
    {
      appointments := DeleteById(appointments, id);
    }

    /** AppointmentRepository.deleteAllByDoctorId. */
    method DeleteAppointmentsOfDoctor(doctorId: nat)
      modifies this`appointments
      ensures Snapshot() == old(Snapshot()).(appointments := DeleteAllByDoctorId(old(appointments), doctorId))
    {
      appointments := DeleteAllByDoctorId(appointments, doctorId);
    }

    /** AppointmentRepository.updateStatus. */
    method SetAppointmentStatus(status: int, id: nat)
      modifies this`appointments
      ensures Snapshot() == old(Snapshot()).(appointments := UpdateStatus(old(appointments), status, id))
    {
      appointments := UpdateStatus(appointments, status, id);
    }

    /** DoctorRepository.save of a new doctor: stored under the next id. */
    method InsertDoctor(d: Doctor) returns (id: nat)
      modifies this`doctors, this`nextDoctorId
      ensures id == old(nextDoctorId)
      ensures Snapshot() == old(Snapshot()).(doctors := old(doctors) + [d.(id := Some(id))], nextDoctorId := id + 1)
    {
      id := nextDoctorId;
      doctors := doctors + [d.(id := Some(id))];
      nextDoctorId := nextDoctorId + 1;
    }

    /** DoctorRepository.save of a stored doctor: its row is replaced. */
    method ReplaceDoctorRow(d: Doctor)
      modifies this`doctors
      ensures Snapshot() == old(Snapshot()).(doctors := ReplaceDoctor(old(doctors), d))
    {
      doctors := ReplaceDoctor(doctors, d);
    }

    /** DoctorRepository.delete of a stored doctor. */
    method DeleteDoctorRow(id: nat)
      modifies this`doctors
      ensures Snapshot() == old(Snapshot()).(doctors := Filter(old(doctors), OtherDoctor(id)))
    {
      doctors := Filter(doctors, OtherDoctor(id));
    }

    /** PatientRepository.save of a new patient: stored under the next id. */
    method InsertPatient(p: Patient) returns (id: nat)
      modifies this`patients, this`nextPatientId
      ensures id == old(nextPatientId)
      ensures Snapshot() == old(Snapshot()).(patients := old(patients) + [p.(id := Some(id))], nextPatientId := id + 1)
    {
      id := nextPatientId;
      patients := patients + [p.(id := Some(id))];
      nextPatientId := nextPatientId + 1;
    }

    /** PrescriptionRepository.save. */
    method InsertPrescription(p: Prescription)
      modifies this`prescriptions
      ensures Snapshot() == old(Snapshot()).(prescriptions := old(prescriptions) + [p])
    {
      prescriptions := prescriptions + [p];
    }
  }
}
