# Clinic appointment back end: scheduling and authorization core

This project is a Dafny model of the core of a Spring Boot clinic back end.
Patients book appointments with doctors. Doctors complete them and write
prescriptions. Administrators manage the doctor roster. Every request carries
a signed token naming the caller.

The model covers four parts of the service and controller layer, with proofs
about each:

- **Availability and booking.** `DoctorService.GetDoctorAvailability`
  removes the labels of the day's booked start times from a doctor's
  published slots. `Service.ValidateAppointment` classifies a request as 1
  (free), 0 (taken) or -1 (unknown doctor) by a *prefix* match of the time's
  label. `Times.Label` reproduces `LocalTime.toString`: `HH:mm`, or
  `HH:mm:ss` when the seconds are non-zero. The `Scheduling` module proves
  what follows when published slots are `HH:mm` labels:
  - a booked time is withdrawn from the availability;
  - a second request for it is refused;
  - a cancellation frees it again.
- **Appointment lifecycle.**
  - `AppointmentService` books with no slot check of its own.
  - It moves and cancels an appointment only for the patient who owns it.
  - `ChangeStatus` sets any status, with no transition check.
  - `PrescriptionController` marks an appointment Completed before it saves
    the prescription.
  - `PrescriptionService` keeps at most one prescription per appointment.
- **Role-scoped authorization.** `TokenService.ValidateToken` accepts a
  token only when it verifies, has a non-empty subject, and that subject is
  found in the table of the claimed role. The controllers gate each
  operation on it.
- **Queries.** The repository finders are modelled as selections:
  - inclusive time windows;
  - case-insensitive contains and equals;
  - status equality;
  - ascending order.

  Built on them:
  - the doctor and patient filters of `Service`, dispatched on which
    arguments are null;
  - the AM/PM bucketing of `DoctorService`;
  - the field validators of `Appointment` and `Patient`;
  - the derived fields of `AppointmentDTO`.

Structure:

- **`Database.Db`** is a value holding every table and the identity
  counters. `Storage.Store` is the mutable store over those tables; its
  methods are the repository writes.
- **Changing operations.** Each service operation that changes data is a
  pure `…Outcome` function from a `Db` to a result and a new `Db`, plus a
  method on the `Store` proved equal to it. The outcome functions' contracts
  state the result codes and the new state.
- **Controllers** are total functions from requests to a reply (status plus
  message or data) and a new `Db`.
- **Exceptions** are `Wrappers.Result` values; Java `null` is
  `Wrappers.Option`.
- **`Integrity`** proves that every changing operation keeps the store
  `Valid`:
  - ids issued and unique;
  - appointment references resolving;
  - every stored patient meeting its validation constraints.

  Email and username uniqueness is not part of `Valid`: the finders state
  what they do when two rows match (they throw).

## Model

| member | source | states |
|---|---|---|
| Models.EmptyAppointment | app/src/main/java/com/project/back_end/models/Appointment.java:49-53 | `new Appointment()` has no id, doctor, patient or time, and status Scheduled (0) |
| Models.NewAppointment | app/src/main/java/com/project/back_end/models/Appointment.java:56-61 | the three-argument constructor stores doctor, patient and time, leaves the id unset and starts Scheduled |
| Models.EndTime | app/src/main/java/com/project/back_end/models/Appointment.java:67-69 | getEndTime is null exactly when the start is null, else exactly 3600 s after it |
| Models.AppointmentDate | app/src/main/java/com/project/back_end/models/Appointment.java:73-75 | getAppointmentDate is null exactly when the start is null, and otherwise the start's date |
| Models.AppointmentTimeOnly | app/src/main/java/com/project/back_end/models/Appointment.java:80-82 | getAppointmentTimeOnly is null exactly when the start is null; with the date part it recomposes the start |
| Models.AppointmentViolations | app/src/main/java/com/project/back_end/models/Appointment.java:27-44 | no constraint violation iff doctor, patient and time are set and the time is strictly after now |
| Models.NewPatient | app/src/main/java/com/project/back_end/models/Patient.java:53-59 | the constructor stores its five arguments verbatim and leaves the id unset |
| Text.Utf16Length | app/src/main/java/com/project/back_end/models/Patient.java:19 | String.length: between the character count and twice it |
| Text.Utf16LengthBmp | app/src/main/java/com/project/back_end/models/Patient.java:19 | String.length equals the character count iff every character is in the Basic Multilingual Plane |
| Models.PatientViolations | app/src/main/java/com/project/back_end/models/Patient.java:18-48 | valid iff name has 3..100 UTF-16 code units, email set, password has at least 6, phone is exactly ten digits, address at most 255 (lengths counted as String.length counts them) |
| Times.PlusOneHour | app/src/main/java/com/project/back_end/models/Appointment.java:67-69 | plusHours(1) is the instant 3600 s later, same minute and second |
| Times.InDayWindowIff | app/src/main/java/com/project/back_end/services/DoctorService.java:53-59 | a date-time lies in the inclusive window [date 00:00, date at LocalTime.MAX] iff its date is that date |
| Times.Label | app/src/main/java/com/project/back_end/services/DoctorService.java:62-64 | LocalTime.toString: five chars `HH:mm` when seconds are zero, eight chars `HH:mm:ss` otherwise, zero-padded |
| Times.LabelInjective | app/src/main/java/com/project/back_end/services/DoctorService.java:62-68 | equal labels come only from equal times of day |
| Times.LabelStartsWithIff | app/src/main/java/com/project/back_end/services/Service.java:159-161 | a label starts with another exactly when hour and minute agree and the prefix has no seconds or the same seconds |
| Times.LabelHourParses | app/src/main/java/com/project/back_end/services/DoctorService.java:156-160 | the text before the first ':' of a label parses back to its hour |
| AppointmentDto.Construct | app/src/main/java/com/project/back_end/DTO/AppointmentDTO.java:45-65 | all ten arguments copied; derived date, time-of-day and end (start + 1 h) set iff the time is non-null and recomposing the start |
| AppointmentDto.AppointmentDTO.constructor | app/src/main/java/com/project/back_end/DTO/AppointmentDTO.java:45-65 | the object's fields equal Construct of its arguments, and the derived fields agree with the time |
| AppointmentDto.AppointmentDTO.Empty | app/src/main/java/com/project/back_end/DTO/AppointmentDTO.java:69 | the no-argument constructor: every reference null, status 0 |
| AppointmentDto.AppointmentDTO.SetAppointmentTime | app/src/main/java/com/project/back_end/DTO/AppointmentDTO.java:97-104 | stores the time; recomputes the three derived fields for a non-null time and leaves them as they were for null; touches nothing else |
| AppointmentDto.AppointmentDTO.SetId | app/src/main/java/com/project/back_end/DTO/AppointmentDTO.java:73 | changes only the id; the derived fields are untouched |
| AppointmentDto.AppointmentDTO.SetDoctorId | app/src/main/java/com/project/back_end/DTO/AppointmentDTO.java:76 | changes only doctorId |
| AppointmentDto.AppointmentDTO.SetDoctorName | app/src/main/java/com/project/back_end/DTO/AppointmentDTO.java:79 | changes only doctorName |
| AppointmentDto.AppointmentDTO.SetPatientId | app/src/main/java/com/project/back_end/DTO/AppointmentDTO.java:82 | changes only patientId |
| AppointmentDto.AppointmentDTO.SetPatientName | app/src/main/java/com/project/back_end/DTO/AppointmentDTO.java:85 | changes only patientName |
| AppointmentDto.AppointmentDTO.SetPatientEmail | app/src/main/java/com/project/back_end/DTO/AppointmentDTO.java:88 | changes only patientEmail |
| AppointmentDto.AppointmentDTO.SetPatientPhone | app/src/main/java/com/project/back_end/DTO/AppointmentDTO.java:91 | changes only patientPhone |
| AppointmentDto.AppointmentDTO.SetPatientAddress | app/src/main/java/com/project/back_end/DTO/AppointmentDTO.java:94 | changes only patientAddress |
| AppointmentDto.AppointmentDTO.SetStatus | app/src/main/java/com/project/back_end/DTO/AppointmentDTO.java:108 | changes only the status; the derived fields are untouched |
| Database.SingleResult | app/src/main/java/com/project/back_end/repo/PatientRepository.java:12-16 | a single-result finder: no row gives null, one row gives it, two or more throw |
| Database.SingleResultOnUniqueKey | app/src/main/java/com/project/back_end/repo/PatientRepository.java:12 | a single-result finder over a unique key never throws |
| Database.FindDoctorById | app/src/main/java/com/project/back_end/services/DoctorService.java:46-47 | findById: the row with that id, or empty exactly when no row has it |
| Database.FindPatientById | app/src/main/java/com/project/back_end/models/Appointment.java:34-37 | resolving an appointment's patient reference: the row with that id, or none exactly when no row has it |
| Database.FindAppointmentById | app/src/main/java/com/project/back_end/services/AppointmentService.java:66-70 | findById on appointments: the row with that id, or empty exactly when no row has it |
| Database.FindAppointmentByIdUnique | app/src/main/java/com/project/back_end/services/AppointmentService.java:66-72 | with unique ids, findById returns the one row carrying the id |
| Database.FindPatientByEmail | app/src/main/java/com/project/back_end/repo/PatientRepository.java:12 | null exactly when no patient has the email (a null email selects null emails); throws iff two rows have it; a found row is the one row with it |
| Database.FindPatientByEmailReturns | app/src/main/java/com/project/back_end/repo/PatientRepository.java:12 | with unique emails findByEmail never throws |
| Database.FindPatientByEmailOrPhone | app/src/main/java/com/project/back_end/repo/PatientRepository.java:16 | null exactly when no patient has the email or the phone; throws iff two rows match; a found row matches one of them |
| Database.FindAdminByUsername | app/src/main/java/com/project/back_end/repo/AdminRepository.java:15 | null exactly when no admin has the username (a null username selects null usernames); throws iff two rows have it; a found row is the one row with it |
| Database.FindAdminByUsernameReturns | app/src/main/java/com/project/back_end/repo/AdminRepository.java:15 | with unique usernames findByUsername never throws |
| Database.FindPrescriptionsByAppointmentId | app/src/main/java/com/project/back_end/repo/PrescriptionRepository.java:19 | exactly the prescriptions of that appointment; empty iff there is none |
| DoctorRepository.FindByEmail | app/src/main/java/com/project/back_end/repo/DoctorRepository.java:21 | null exactly when no doctor has the email; throws iff two rows have it; a found row is the one row with it |
| DoctorRepository.FindByEmailReturns | app/src/main/java/com/project/back_end/repo/DoctorRepository.java:21 | with unique emails findByEmail never throws |
| DoctorRepository.FindByNameLike | app/src/main/java/com/project/back_end/repo/DoctorRepository.java:26-27 | exactly the doctors whose name contains the argument, case-sensitively |
| DoctorRepository.FindByNameContainingIgnoreCaseAndSpecialtyIgnoreCase | app/src/main/java/com/project/back_end/repo/DoctorRepository.java:33-34 | exactly the doctors whose name contains the argument ignoring case and whose specialty equals it ignoring case |
| DoctorRepository.FindBySpecialtyIgnoreCase | app/src/main/java/com/project/back_end/repo/DoctorRepository.java:38 | exactly the doctors whose specialty equals the argument ignoring case |
| DoctorRepository.ContainsImpliesIgnoreCase | app/src/main/java/com/project/back_end/repo/DoctorRepository.java:26-34 | a case-sensitive containment match is also a case-insensitive one |
| DoctorRepository.ReplaceDoctor | app/src/main/java/com/project/back_end/services/DoctorService.java:112 | save of a stored doctor: the row with that id is replaced, every other row kept in place |
| AppointmentRepository.FindByDoctorIdAndAppointmentTimeBetween | app/src/main/java/com/project/back_end/repo/AppointmentRepository.java:24-30 | exactly the doctor's appointments whose time lies in [start, end], both ends included, any status |
| AppointmentRepository.FindByDoctorIdAndPatientNameContainingIgnoreCaseAndAppointmentTimeBetween | app/src/main/java/com/project/back_end/repo/AppointmentRepository.java:34-43 | as above, and the patient's name contains the argument ignoring case |
| AppointmentRepository.NameVariantNarrows | app/src/main/java/com/project/back_end/repo/AppointmentRepository.java:24-43 | the name variant is the plain variant's result filtered by the name, in the same order |
| AppointmentRepository.FindByPatientId | app/src/main/java/com/project/back_end/repo/AppointmentRepository.java:52 | exactly the appointments of that patient |
| AppointmentRepository.SortByTime | app/src/main/java/com/project/back_end/repo/AppointmentRepository.java:55 | ORDER BY appointmentTime ASC: sorted by start time and a permutation of its input |
| AppointmentRepository.FindByPatientIdAndStatusOrderByAppointmentTimeAsc | app/src/main/java/com/project/back_end/repo/AppointmentRepository.java:55 | every appointment of that patient with that status, with its multiplicity, and nothing else, in ascending time |
| AppointmentRepository.FilterByDoctorNameAndPatientId | app/src/main/java/com/project/back_end/repo/AppointmentRepository.java:59-60 | the patient's appointments whose doctor's name contains the argument ignoring case; nothing for a null patient id |
| AppointmentRepository.FilterByDoctorNameAndPatientIdAndStatus | app/src/main/java/com/project/back_end/repo/AppointmentRepository.java:63-64 | as above and with that status |
| AppointmentRepository.UpdateStatus | app/src/main/java/com/project/back_end/repo/AppointmentRepository.java:70-73 | only the status of the row with that id changes; all other fields and rows stay |
| AppointmentRepository.UpdateStatusAbsent | app/src/main/java/com/project/back_end/repo/AppointmentRepository.java:70-73 | for an id no row has, updateStatus changes nothing |
| AppointmentRepository.UpdateStatusFound | app/src/main/java/com/project/back_end/repo/AppointmentRepository.java:70-73 | after updateStatus, findById on the id yields the old row with the new status |
| AppointmentRepository.UpdateTime | app/src/main/java/com/project/back_end/services/AppointmentService.java:87-90 | setAppointmentTime then save: only the time of the row with that id changes |
| AppointmentRepository.DeleteById | app/src/main/java/com/project/back_end/services/AppointmentService.java:111 | deleteById keeps exactly the rows with another id |
| AppointmentRepository.DeleteByIdRemoves | app/src/main/java/com/project/back_end/services/AppointmentService.java:111 | after deleteById, findById on the id finds nothing and every other row is still there |
| AppointmentRepository.DeleteAllByDoctorId | app/src/main/java/com/project/back_end/repo/AppointmentRepository.java:47-49 | exactly the appointments of other doctors remain |
| AppointmentRepository.Insert | app/src/main/java/com/project/back_end/services/AppointmentService.java:51 | save of a new appointment appends it under the next id and advances the counter, nothing else changes |
| Storage.Store.InsertAppointment | app/src/main/java/com/project/back_end/services/AppointmentService.java:51 | the store after save of a new appointment is Insert of the old one |
| Storage.Store.SaveAppointmentTime | app/src/main/java/com/project/back_end/services/AppointmentService.java:87-90 | the store after the time update is UpdateTime of the old one |
| Storage.Store.DeleteAppointment | app/src/main/java/com/project/back_end/services/AppointmentService.java:111 | the store after deleteById is DeleteById of the old one |
| Storage.Store.DeleteAppointmentsOfDoctor | app/src/main/java/com/project/back_end/repo/AppointmentRepository.java:47-49 | the store after deleteAllByDoctorId is DeleteAllByDoctorId of the old one |
| Storage.Store.SetAppointmentStatus | app/src/main/java/com/project/back_end/repo/AppointmentRepository.java:70-73 | the store after updateStatus is UpdateStatus of the old one |
| Storage.Store.InsertDoctor | app/src/main/java/com/project/back_end/services/DoctorService.java:81 | save of a new doctor appends it under the next id |
| Storage.Store.ReplaceDoctorRow | app/src/main/java/com/project/back_end/services/DoctorService.java:112 | save of a stored doctor replaces its row |
| Storage.Store.DeleteDoctorRow | app/src/main/java/com/project/back_end/services/DoctorService.java:133 | deleteById removes exactly the rows with that id |
| Storage.Store.InsertPatient | app/src/main/java/com/project/back_end/services/PatientService.java:42 | save of a new patient appends it under the next id |
| Storage.Store.InsertPrescription | app/src/main/java/com/project/back_end/services/PrescriptionService.java:42 | save of a prescription appends it |
| Passwords.HashPassword | app/src/main/java/com/project/back_end/services/Service.java:198-207 | checkPassword(p, hashPassword(p)) holds, and for no other password |
| Passwords.HashStored | app/src/main/java/com/project/back_end/services/DoctorService.java:80 | hashing a possibly null password: null stays null, otherwise it checks against the raw one |
| TokenService.GenerateToken | app/src/main/java/com/project/back_end/services/TokenService.java:48-55 | subject = identifier (unset for a null identifier), issued now, expiring 604 800 000 ms later, signed with the key; throws iff the key is shorter than 256 bits |
| TokenService.ExtractIdentifier | app/src/main/java/com/project/back_end/services/TokenService.java:59-67 | returns the subject iff the key is strong, the token well formed, signed with the key and not expired |
| TokenService.IssueThenExtract | app/src/main/java/com/project/back_end/services/TokenService.java:48-67 | a token issued now yields its identifier for seven days and is rejected afterwards |
| TokenService.RoleLookup | app/src/main/java/com/project/back_end/services/TokenService.java:85-96 | admin by username, doctor and patient by email; true only with a record, false without one or for any other role; throws iff two records of the role's table match |
| TokenService.ValidateToken | app/src/main/java/com/project/back_end/services/TokenService.java:76-102 | true iff the token verifies, its subject is non-null and non-empty, and the role (lower-cased) finds a record; every exception gives false |
| TokenService.GetPatientIdFromToken | app/src/main/java/com/project/back_end/services/TokenService.java:105-113 | the id of a patient whose email is the subject; null when parsing fails or when the finder throws because two patients share the email; the found patient's id, so the id of the one patient with that email |
| DoctorService.StartLabels | app/src/main/java/com/project/back_end/services/DoctorService.java:62-64 | the labels are exactly those of the rows' start times |
| DoctorService.BookedLabels | app/src/main/java/com/project/back_end/services/DoctorService.java:53-64 | a label is booked iff some appointment of the doctor, any status, starts on that date with that label |
| DoctorService.GetDoctorAvailability | app/src/main/java/com/project/back_end/services/DoctorService.java:45-70 | empty for an unknown doctor; otherwise exactly the published slots not equal to a booked label |
| DoctorService.AvailabilityKeepsOrderAndRepeats | app/src/main/java/com/project/back_end/services/DoctorService.java:66-69 | the result is a subsequence of the published slots and keeps each free slot's multiplicity |
| DoctorService.ParseHour | app/src/main/java/com/project/back_end/services/DoctorService.java:157-158 | the integer before the first ':'; throws iff splitting or parsing fails |
| DoctorService.IsTimeInPeriod | app/src/main/java/com/project/back_end/services/DoctorService.java:156-165 | throws iff the hour does not parse; AM (any case) iff hour < 12, PM (any case) iff hour >= 12, otherwise false |
| DoctorService.LabelPeriod | app/src/main/java/com/project/back_end/services/DoctorService.java:156-165 | on a LocalTime label, AM/am give hour < 12 and PM/pm give hour >= 12 |
| DoctorService.AnySlotInPeriod | app/src/main/java/com/project/back_end/services/DoctorService.java:170-171 | anyMatch in order: true iff the first slot not answering false answers true; throws iff that slot throws; false iff every slot answers false |
| DoctorService.FilterListByTime | app/src/main/java/com/project/back_end/services/DoctorService.java:168-173 | keeps exactly the doctors with a slot in the period; throws iff some doctor's anyMatch throws, so never when every hour parses |
| DoctorService.FilterListByTimeKeepsOrder | app/src/main/java/com/project/back_end/services/DoctorService.java:168-173 | the doctors kept appear in their original list order |
| DoctorService.LabelSlotsNeverThrow | app/src/main/java/com/project/back_end/services/DoctorService.java:168-173 | with LocalTime-shaped slots the time filter never throws |
| DoctorService.WrapDoctors | app/src/main/java/com/project/back_end/services/DoctorService.java:218-222 | the single key "doctors" maps to the list |
| DoctorService.GetDoctors | app/src/main/java/com/project/back_end/services/DoctorService.java:119-121 | exactly the stored doctors |
| DoctorService.FindDoctorByName | app/src/main/java/com/project/back_end/services/DoctorService.java:151-153 | exactly the doctors whose name contains the argument, case-sensitively, under "doctors" |
| DoctorService.FilterDoctorsByNameSpecilityandTime | app/src/main/java/com/project/back_end/services/DoctorService.java:177-180 | name (ignoring case), specialty and period all hold; throws iff some doctor matching name and specialty has an anyMatch that throws; returns when every stored slot hour parses |
| DoctorService.FilterDoctorsByTime | app/src/main/java/com/project/back_end/services/DoctorService.java:186-189 | every doctor with a slot in the period; throws iff some doctor's anyMatch throws; returns when every slot hour parses |
| DoctorService.FilterDoctorByNameAndTime | app/src/main/java/com/project/back_end/services/DoctorService.java:193-196 | case-sensitive name containment and a slot in the period; throws iff some name-matching doctor's anyMatch throws; returns when every slot hour parses |
| DoctorService.FilterDoctorByNameAndSpecility | app/src/main/java/com/project/back_end/services/DoctorService.java:200-202 | name containment and specialty equality, both ignoring case |
| DoctorService.FilterDoctorByTimeAndSpecility | app/src/main/java/com/project/back_end/services/DoctorService.java:206-209 | specialty equality ignoring case and a slot in the period; throws iff some doctor of the specialty has an anyMatch that throws; returns when every slot hour parses |
| DoctorService.FilterDoctorBySpecility | app/src/main/java/com/project/back_end/services/DoctorService.java:213-215 | specialty equality ignoring case |
| DoctorService.NewDoctorRow | app/src/main/java/com/project/back_end/services/DoctorService.java:80-81 | the saved row: next id, hashed password, every other field as given |
| DoctorService.SaveDoctorOutcome | app/src/main/java/com/project/back_end/services/DoctorService.java:74-87 | -1 and no change when the email is registered; 1 and the doctor appended iff the email is free and storage works; 0 otherwise, no change |
| DoctorService.UpdatedDoctor | app/src/main/java/com/project/back_end/services/DoctorService.java:101-108 | name, phone, specialty and slots from the request; password replaced only by a non-null non-empty one; id and email kept |
| DoctorService.UpdateDoctorOutcome | app/src/main/java/com/project/back_end/services/DoctorService.java:91-115 | -1 for an unknown id; 1 iff the doctor exists and storage works, replacing its row; 0 otherwise; no change unless 1 |
| DoctorService.DeleteDoctorOutcome | app/src/main/java/com/project/back_end/services/DoctorService.java:125-138 | -1 for an unknown id; on 1 exactly the doctor's appointments and the doctor are gone; no change unless 1 |
| DoctorService.ValidateDoctor | app/src/main/java/com/project/back_end/services/DoctorService.java:141-147 | the issued token when the email's doctor has the password, otherwise "Invalid Credentials" (always for a null email); throws iff findByEmail throws or a doctor is found for a null password, which checkPassword dereferences (NullPointerException) |
| DoctorService.SaveDoctor | app/src/main/java/com/project/back_end/services/DoctorService.java:74-87 | performs SaveDoctorOutcome on the store |
| DoctorService.UpdateDoctor | app/src/main/java/com/project/back_end/services/DoctorService.java:91-115 | performs UpdateDoctorOutcome on the store |
| DoctorService.DeleteDoctor | app/src/main/java/com/project/back_end/services/DoctorService.java:125-138 | performs DeleteDoctorOutcome on the store |
| Service.AnySlotStartsWith | app/src/main/java/com/project/back_end/services/Service.java:161 | true iff some slot starts with the requested text |
| Service.ValidateAppointment | app/src/main/java/com/project/back_end/services/Service.java:145-164 | -1 iff no doctor has the id; 1 iff a free slot of that day starts with the requested time's label; throws for a null doctor, or a null time of a known doctor |
| Service.ValidatePatient | app/src/main/java/com/project/back_end/services/Service.java:172-175 | true iff no patient has the email or the phone; throws iff two patients match one of them; false otherwise |
| Service.ValidateAdmin | app/src/main/java/com/project/back_end/services/Service.java:72-89 | a token for the username iff the admin exists, its stored password is non-null and equals the one given, and the key is strong; Unauthorized when no admin matches (a null password given matches none); 500 when the finder throws, the stored password is null, or the credentials match under a weak key |
| Service.ValidatePatientLogin | app/src/main/java/com/project/back_end/services/Service.java:93-111 | a token for the email iff the patient exists with that exact non-null password and the key is strong; Unauthorized when none matches (a null password given matches none); 500 when the finder throws, the stored password is null, or the credentials match under a weak key |
| Service.FilterDoctor | app/src/main/java/com/project/back_end/services/Service.java:119-140 | result under "doctors"; exactly the stored doctors admitted by each non-null argument (name case-sensitive unless a specialty is also given); throws iff a time is given and some doctor admitted by the name and specialty has an anyMatch that throws |
| Service.NullTextIsAValue | app/src/main/java/com/project/back_end/services/Service.java:120-133 | the text "null" is a filter value, not an absent argument |
| Service.FilterPatient | app/src/main/java/com/project/back_end/services/Service.java:179-191 | routes condition+name, condition, name, neither to the four PatientService calls; throws a null-unboxing error iff both are given and the token names no patient; every listed appointment is the token's patient's |
| AppointmentService.BookAppointmentOutcome | app/src/main/java/com/project/back_end/services/AppointmentService.java:48-57 | 1 iff storage works, the entity is valid and its references resolve, appending it with no availability check; 0 otherwise with no change |
| AppointmentService.UpdateAppointmentOutcome | app/src/main/java/com/project/back_end/services/AppointmentService.java:62-97 | null id, patient-less row and a storage fault give the error text; not found and not owner their texts; success iff the token's patient owns it and the time is unchanged or valid, changing only its time; an invalid changed time throws at commit |
| AppointmentService.CancelAppointmentOutcome | app/src/main/java/com/project/back_end/services/AppointmentService.java:102-122 | not found / unauthorized texts; patient-less row and a storage fault give the error text; success iff the token's patient owns it and storage works, deleting exactly that row |
| AppointmentService.NoPatientNoChange | app/src/main/java/com/project/back_end/services/AppointmentService.java:65-76 | a token resolving to no patient can neither update nor cancel, and changes nothing |
| AppointmentService.GetAppointments | app/src/main/java/com/project/back_end/services/AppointmentService.java:125-147 | under "appointments": the doctor's appointments on that date, of any status, narrowed by patient name unless it is null, "null" or blank |
| AppointmentService.ChangeStatusOutcome | app/src/main/java/com/project/back_end/services/AppointmentService.java:152-154 | any status, no transition check: the store after updateStatus; throws only on a database fault |
| AppointmentService.BookAppointment | app/src/main/java/com/project/back_end/services/AppointmentService.java:48-57 | performs BookAppointmentOutcome on the store |
| AppointmentService.UpdateAppointment | app/src/main/java/com/project/back_end/services/AppointmentService.java:62-97 | performs UpdateAppointmentOutcome on the store |
| AppointmentService.CancelAppointment | app/src/main/java/com/project/back_end/services/AppointmentService.java:102-122 | performs CancelAppointmentOutcome on the store |
| AppointmentService.ChangeStatus | app/src/main/java/com/project/back_end/services/AppointmentService.java:152-154 | performs ChangeStatusOutcome on the store |
| PatientService.ToDto | app/src/main/java/com/project/back_end/services/PatientService.java:178-188 | succeeds iff both references resolve; copies id, doctor and patient fields, time and status |
| PatientService.ConvertToDTOs | app/src/main/java/com/project/back_end/services/PatientService.java:176-191 | one DTO per appointment, same order and length, each ToDto of its row; fails iff some row does not resolve |
| PatientService.StoredAppointmentsConvert | app/src/main/java/com/project/back_end/services/PatientService.java:176-191 | in a valid store, stored appointments always convert |
| PatientService.DtosDescribeRows | app/src/main/java/com/project/back_end/services/PatientService.java:176-191 | every DTO comes from a resolving input row with the same id, patient, doctor, time and status |
| PatientService.ConditionStatus | app/src/main/java/com/project/back_end/services/PatientService.java:86-94 | "past" gives 1 and "future" 0, ignoring case; nothing else maps |
| PatientService.GetPatientAppointment | app/src/main/java/com/project/back_end/services/PatientService.java:53-78 | Unauthorized iff the token's patient is missing or has another id; data iff the token's patient has the id and the appointments convert, and then exactly their DTOs |
| PatientService.OnlyOwnAppointments | app/src/main/java/com/project/back_end/services/PatientService.java:57-72 | every DTO returned belongs to the requested, non-null patient id |
| PatientService.FilterByCondition | app/src/main/java/com/project/back_end/services/PatientService.java:83-106 | BadRequest iff the condition is invalid; data iff it is valid and the rows convert, and then the DTOs of the patient's appointments with that status in ascending time |
| PatientService.FilterByDoctor | app/src/main/java/com/project/back_end/services/PatientService.java:111-124 | data iff the rows convert, and then the DTOs of the patient's appointments whose doctor's name matches; all of them the patient's |
| PatientService.FilterByDoctorAndCondition | app/src/main/java/com/project/back_end/services/PatientService.java:129-152 | BadRequest iff the condition is invalid; data iff it is valid and the rows convert, and then the DTOs of the rows where doctor name and status both hold, all for that patient |
| PatientService.GetPatientDetails | app/src/main/java/com/project/back_end/services/PatientService.java:156-173 | the found patient whose email is the token's subject, as OK data; NotFound when none; 500 on a parse failure or when the finder throws |
| PatientService.CreatePatientOutcome | app/src/main/java/com/project/back_end/services/PatientService.java:40-48 | 1 iff storage works and the patient is valid, appending it under the next id with no uniqueness check; 0 otherwise with no change |
| PatientService.CreatePatient | app/src/main/java/com/project/back_end/services/PatientService.java:40-48 | performs CreatePatientOutcome on the store |
| PrescriptionService.SavePrescriptionOutcome | app/src/main/java/com/project/back_end/services/PrescriptionService.java:29-53 | Created iff no prescription for the appointment exists and no fault, appending it; BadRequest for a duplicate; 500 with the fault text; no change unless Created |
| PrescriptionService.SaveKeepsOnePerAppointment | app/src/main/java/com/project/back_end/services/PrescriptionService.java:33-46 | saving keeps at most one prescription per appointment |
| PrescriptionService.SecondSaveRefused | app/src/main/java/com/project/back_end/services/PrescriptionService.java:33-39 | after a successful save, another for the same appointment is refused |
| PrescriptionService.GetPrescription | app/src/main/java/com/project/back_end/services/PrescriptionService.java:57-72 | exactly the appointment's prescriptions; 500 with the fault text otherwise |
| PrescriptionService.SavePrescription | app/src/main/java/com/project/back_end/services/PrescriptionService.java:29-53 | performs SavePrescriptionOutcome on the store |
| AppointmentController.GetAppointments | app/src/main/java/com/project/back_end/controllers/AppointmentController.java:44-68 | Unauthorized without a doctor token; data only with one, and then exactly getAppointments for the doctor whose email is the token's subject |
| AppointmentController.ValidDoctorTokenLists | app/src/main/java/com/project/back_end/controllers/AppointmentController.java:51-59 | a valid doctor token always gets the list |
| AppointmentController.BookAppointment | app/src/main/java/com/project/back_end/controllers/AppointmentController.java:72-103 | nothing stored without a patient token or unless validation gives 1; Created iff booking gives 1; 0, -1, a failed booking and a throwing validation map to their replies with no change |
| AppointmentController.BookingPatientUnchecked | app/src/main/java/com/project/back_end/controllers/AppointmentController.java:73-84 | the body's patient is not checked against the token: any stored patient id books the same way |
| AppointmentController.UpdateAppointment | app/src/main/java/com/project/back_end/controllers/AppointmentController.java:107-126 | OK iff the service returns its exact success text; any other text is BadRequest with that text and no change; an exception is 500 with no change |
| AppointmentController.CancelAppointment | app/src/main/java/com/project/back_end/controllers/AppointmentController.java:130-149 | OK iff the service returns its exact success text, deleting the row; any other text is BadRequest with that text and no change |
| PrescriptionController.SavePrescription | app/src/main/java/com/project/back_end/controllers/PrescriptionController.java:38-54 | Unauthorized and no change without a doctor token; otherwise status set to Completed before the save, which may still be refused |
| PrescriptionController.AnyDoctorMayComplete | app/src/main/java/com/project/back_end/controllers/PrescriptionController.java:44-49 | any two valid doctor tokens get the same outcome: no ownership check |
| PrescriptionController.DuplicateStillCompletes | app/src/main/java/com/project/back_end/controllers/PrescriptionController.java:46-49 | a refused duplicate still leaves the appointment Completed |
| PrescriptionController.GetPrescription | app/src/main/java/com/project/back_end/controllers/PrescriptionController.java:58-71 | Unauthorized without a doctor token; with one, exactly the service's reply (the appointment's prescriptions, or 500 on a fault) |
| DoctorController.GetDoctorAvailability | app/src/main/java/com/project/back_end/controllers/DoctorController.java:33-49 | the availability iff the token validates for the role named in the path |
| DoctorController.GetDoctor | app/src/main/java/com/project/back_end/controllers/DoctorController.java:53-59 | every stored doctor under "doctors" |
| DoctorController.SaveDoctor | app/src/main/java/com/project/back_end/controllers/DoctorController.java:63-85 | no change without an admin token; 1 is Created, -1 Conflict, 0 is 500 with no change |
| DoctorController.DoctorLogin | app/src/main/java/com/project/back_end/controllers/DoctorController.java:89-102 | success iff validateDoctor returns something other than "Invalid Credentials"; that text is Unauthorized; an exception, the null-password NullPointerException included, is 500 |
| DoctorController.CodeReply | app/src/main/java/com/project/back_end/controllers/DoctorController.java:112-123 | 1 is OK, -1 NotFound, anything else 500 |
| DoctorController.UpdateDoctor | app/src/main/java/com/project/back_end/controllers/DoctorController.java:106-128 | no change without an admin token; otherwise the service's code mapped by CodeReply |
| DoctorController.DeleteDoctor | app/src/main/java/com/project/back_end/controllers/DoctorController.java:132-154 | no change without an admin token; with one, the deleteDoctor outcome as OK, NotFound or 500; OK leaves neither the doctor nor its appointments; NotFound iff the id is unknown |
| DoctorController.Filter | app/src/main/java/com/project/back_end/controllers/DoctorController.java:158-165 | the path's name, time and speciality reach filterDoctor in its (name, specialty, time) order; data iff that call returns, and then its map; data whenever every slot hour parses |
| PatientController.GetPatient | app/src/main/java/com/project/back_end/controllers/PatientController.java:32-44 | Unauthorized without a patient token; otherwise getPatientDetails |
| PatientController.CreatePatient | app/src/main/java/com/project/back_end/controllers/PatientController.java:48-68 | Conflict and no change when validatePatient is false; Created iff the service returns 1; a failed creation or a throwing check is 500 with no change |
| PatientController.SignupKeepsContactsUnique | app/src/main/java/com/project/back_end/controllers/PatientController.java:53-55 | a sign-up that stores something used an email and a phone no patient had |
| PatientController.Login | app/src/main/java/com/project/back_end/controllers/PatientController.java:72-76 | validatePatientLogin's answer: a token iff the email's patient has that password and the key is strong; Unauthorized when no patient matches |
| PatientController.GetPatientAppointment | app/src/main/java/com/project/back_end/controllers/PatientController.java:80-93 | Unauthorized without a patient token; every listed appointment belongs to the requested id |
| PatientController.FilterPatientAppointment | app/src/main/java/com/project/back_end/controllers/PatientController.java:97-111 | Unauthorized without a patient token; with one, the doctor-and-condition filter of the token's patient, or 500 with a null-unboxing error when the token names no patient; lists only that patient's appointments |
| Integrity.InsertKeepsValid | app/src/main/java/com/project/back_end/services/AppointmentService.java:51 | appending an appointment with a time and resolving references keeps the store valid |
| Integrity.BookKeepsValid | app/src/main/java/com/project/back_end/services/AppointmentService.java:48-57 | booking keeps ids issued and unique and references resolving |
| Integrity.UpdateKeepsValid | app/src/main/java/com/project/back_end/services/AppointmentService.java:62-97 | moving an appointment keeps the store valid |
| Integrity.CancelKeepsValid | app/src/main/java/com/project/back_end/services/AppointmentService.java:102-122 | cancelling keeps the store valid |
| Integrity.ChangeStatusKeepsValid | app/src/main/java/com/project/back_end/services/AppointmentService.java:152-154 | a status change keeps the store valid |
| Integrity.CreatePatientKeepsValid | app/src/main/java/com/project/back_end/services/PatientService.java:40-48 | registering keeps the store valid; a stored patient meets its constraints |
| Integrity.SaveDoctorKeepsValid | app/src/main/java/com/project/back_end/services/DoctorService.java:74-87 | adding a doctor keeps the store valid |
| Integrity.UpdateDoctorKeepsValid | app/src/main/java/com/project/back_end/services/DoctorService.java:91-115 | updating a doctor keeps the store valid |
| Integrity.DeleteDoctorKeepsValid | app/src/main/java/com/project/back_end/services/DoctorService.java:125-138 | deleting a doctor with its appointments leaves no dangling appointment |
| Scheduling.PrefixIsEqualityOnHourMinuteSlots | app/src/main/java/com/project/back_end/services/Service.java:159-161 | on an `HH:mm` slot, startsWith of a time label is equality with it |
| Scheduling.SecondsNeverMatch | app/src/main/java/com/project/back_end/services/Service.java:159-161 | a requested time with seconds matches no `HH:mm` slot |
| Scheduling.BookedSlotWithdrawn | app/src/main/java/com/project/back_end/services/DoctorService.java:58-68 | after a booking at t, t's label is no longer offered that day |
| Scheduling.NoOpenSlotIsTaken | app/src/main/java/com/project/back_end/services/Service.java:145-164 | a known doctor with no open matching slot gives 0 |
| Scheduling.NoDoubleBooking | app/src/main/java/com/project/back_end/controllers/AppointmentController.java:80-94 | on `HH:mm` schedules a second request for a booked doctor and time validates to 0 |
| Scheduling.SecondCancelNotFound | app/src/main/java/com/project/back_end/services/AppointmentService.java:104-118 | cancelling the same id again answers "Appointment not found." and changes nothing |
| Scheduling.CancelFreesSlot | app/src/main/java/com/project/back_end/services/DoctorService.java:58-68 | after a cancel the slot is offered again unless another booking holds it |
| Scheduling.AdminLoginTokenValidates | app/src/main/java/com/project/back_end/services/Service.java:72-89 | an admin login token passes the admin check for its seven days |
| Scheduling.PatientLoginTokenResolves | app/src/main/java/com/project/back_end/services/Service.java:93-111 | a patient login token passes the patient check and resolves to that patient's id |
| Scheduling.NullPasswordLogins | app/src/main/java/com/project/back_end/services/DoctorService.java:141-147 | a login body without a password: the doctor login is 500 exactly when a doctor has the email; the patient and admin logins issue no token |
| Scheduling.ExpiredTokenRejected | app/src/main/java/com/project/back_end/services/TokenService.java:76-113 | an expired token fails every role check and resolves to no patient |

## Left out

- **JWT internals.** Signing and parsing are abstracted as the `Token`
  datatype.
  - A well-formed token signed with the configured secret and not expired
    yields its subject.
  - A secret shorter than 32 characters is a weak key.
  - The HMAC computation and the Base64 text form are not modelled.
- **Clock.** The clock is a parameter (`Env.nowMillis`, `Env.now`). A
  request that reads the clock several times is given one instant.
- **Time.** Dates are day numbers and times of day are whole seconds.
  Calendar arithmetic, nanoseconds and `LocalDate.parse` errors on malformed
  date text are not modelled.
- **Database faults.** Failures of the database itself are the explicit
  parameters `storageOk` and `fault`. What makes a real database fail is not
  modelled.
- **Persistence layer.** Not modelled:
  - transactions, and rollback-only marking;
  - lazy loading;
  - SQL `LIKE` wildcards in user input;
  - collation.

  Case folding is the ASCII one.
- **Ids on insert.** A saved entity always receives the next id. An id
  supplied in the request body of a create is ignored, not merged.
- **Email format.** The `@Email` constraint on `Patient.email` uses a
  validator pattern that is not part of this model. Only its presence is
  checked.
- **Entities as values.** `Appointment`, `Patient`, `Doctor` and `Admin`
  are datatypes, and their setters are datatype updates. `AppointmentDTO`
  is a class because its setters recompute derived fields.
- **Doctor, Admin and Prescription entities.** `Doctor.java`, `Admin.java`
  and `Prescription.java` are not part of this model. Their fields are taken
  from the repository and service code that uses them.
- **`DoctorService.ValidateDoctor`.** It calls a two-argument
  `generateToken` that `TokenService` does not declare. The token it would
  issue is the opaque parameter `issued`.
- **`DoctorController.DoctorLogin`** inherits that parameter.
- **Login bodies.** `Login` (`DTO/Login.java`) is a datatype of two
  nullable strings, and so is a received `Admin`. A body without a field
  carries null there. The JSON binding itself is not modelled.
- **Doctor email.** A stored doctor's email is a non-null string, so a
  login with a null email finds no doctor.
- **Thin delegations.** `AdminController.adminLogin` is `Service.ValidateAdmin`
  unchanged. `PatientController.Login` is `Service.ValidatePatientLogin`
  unchanged.
- **Not modelled at all:**
  - the MVC `DashboardController` (view selection);
  - the browser JavaScript.
- **HTTP marshalling.** Response maps, headers and the serialisation of
  replies are not modelled. Each reply is a status and a message or a
  value. The maps built by `getAppointments` and the doctor filters keep
  their single key.
- **Logging and `printStackTrace`** are not modelled.
- **Concurrency.** Not modelled:
  - concurrent requests;
  - the non-atomic validate-then-book sequence of
    `AppointmentController.bookAppointment`.

  Requests are applied one after another.
- **`PatientService.ConvertToDTOs` null input.** The model has no null
  list, so this case does not arise.
- **`Models.AppointmentViolations`** checks Bean Validation on the fields
  the appointment carries. The database's `NOT NULL` and foreign-key
  constraints are folded into `Database.ReferencesResolve`.
- **`TokenService.IssueThenExtract`** counts the lifetime in milliseconds.
  The JWT `exp` claim is stored in whole seconds, so a real token can expire
  up to 999 ms earlier than the lemma says.
- **`TokenService.WeakKey`** counts the characters of the secret.
  `TokenService.java:43` counts the bytes of `secret.getBytes()`, which
  differ for non-ASCII secrets.
- **`DoctorService.ParseHour`** accepts ASCII digits only.
  `Integer.parseInt` (`DoctorService.java:158`) also accepts other Unicode
  decimal digits.
- **`Env`**: the two clock readings `Env.now` and `Env.nowMillis` are
  independent parameters. The model does not require them to name the same
  instant.
