/** AppointmentDTO: a flat copy of an appointment with three fields derived
    from its start time. */
module AppointmentDto {
  import opened Wrappers
  import opened Times

  /** The thirteen fields of an AppointmentDTO, as a value. */
  datatype DtoView = DtoView(
    id: Option<nat>,
    doctorId: Option<nat>,
    doctorName: Option<string>,
    patientId: Option<nat>,
    patientName: Option<string>,
    patientEmail: Option<string>,
    patientPhone: Option<string>,
    patientAddress: Option<string>,
    appointmentTime: Option<LocalDateTime>,
    status: int,
    appointmentDate: Option<LocalDate>,
    appointmentTimeOnly: Option<LocalTime>,
    endTime: Option<LocalDateTime>)

  /** The DTO the ten-argument constructor builds: every argument copied, and
      for a non-null time its date part, its time part and one hour later. */
  function Construct(
    id: Option<nat>, doctorId: Option<nat>, doctorName: Option<string>,
    patientId: Option<nat>, patientName: Option<string>, patientEmail: Option<string>,
    patientPhone: Option<string>, patientAddress: Option<string>,
    appointmentTime: Option<LocalDateTime>, status: int): (v: DtoView)
    ensures v.id == id && v.doctorId == doctorId && v.doctorName == doctorName
    ensures v.patientId == patientId && v.patientName == patientName && v.patientEmail == patientEmail
    ensures v.patientPhone == patientPhone && v.patientAddress == patientAddress
    ensures v.appointmentTime == appointmentTime && v.status == status
    ensures appointmentTime.None? ==> v.appointmentDate.None? && v.appointmentTimeOnly.None? && v.endTime.None?
    ensures appointmentTime.Some? ==>
      && v.appointmentDate.Some? && v.appointmentTimeOnly.Some? && v.endTime.Some?
      && LocalDateTime(v.appointmentDate.value, v.appointmentTimeOnly.value) == appointmentTime.value
      && v.endTime.value.EpochSecond() == appointmentTime.value.EpochSecond() + 3600
  {
    var base := DtoView(id, doctorId, doctorName, patientId, patientName, patientEmail,
                        patientPhone, patientAddress, appointmentTime, status, None, None, None);
    if appointmentTime.Some? then
      var t := appointmentTime.value;
      base.(appointmentDate := Some(t.date), appointmentTimeOnly := Some(t.time), endTime := Some(PlusOneHour(t)))
    else base
  }

  class AppointmentDTO {
    var id: Option<nat>
    var doctorId: Option<nat>
    var doctorName: Option<string>
    var patientId: Option<nat>
    var patientName: Option<string>
    var patientEmail: Option<string>
    var patientPhone: Option<string>
    var patientAddress: Option<string>
    var appointmentTime: Option<LocalDateTime>
    var status: int
    var appointmentDate: Option<LocalDate>
    var appointmentTimeOnly: Option<LocalTime>
    var endTime: Option<LocalDateTime>

    function View(): DtoView
      reads this
    {
      DtoView(id, doctorId, doctorName, patientId, patientName, patientEmail, patientPhone,
              patientAddress, appointmentTime, status, appointmentDate, appointmentTimeOnly, endTime)
    }

    /** While the time is set, the derived fields describe it. */
    ghost predicate DerivedAgree()
      reads this
    {
      appointmentTime.Some? ==>
        && appointmentDate == Some(appointmentTime.value.date)
        && appointmentTimeOnly == Some(appointmentTime.value.time)
        && endTime == Some(PlusOneHour(appointmentTime.value))
    }

    /** The ten-argument constructor. */
    constructor (
      id: Option<nat>, doctorId: Option<nat>, doctorName: Option<string>,
      patientId: Option<nat>, patientName: Option<string>, patientEmail: Option<string>,
      patientPhone: Option<string>, patientAddress: Option<string>,
      appointmentTime: Option<LocalDateTime>, status: int)
      ensures View() == Construct(id, doctorId, doctorName, patientId, patientName, patientEmail,
                                  patientPhone, patientAddress, appointmentTime, status)
      ensures DerivedAgree()
    {
      this.id := id;
      this.doctorId := doctorId;
      this.doctorName := doctorName;
      this.patientId := patientId;
      this.patientName := patientName;
      this.patientEmail := patientEmail;
      this.patientPhone := patientPhone;
      this.patientAddress := patientAddress;
      this.appointmentTime := appointmentTime;
      this.status := status;
      if appointmentTime.Some? {
        this.appointmentDate := Some(appointmentTime.value.date);
        this.appointmentTimeOnly := Some(appointmentTime.value.time);
        this.endTime := Some(PlusOneHour(appointmentTime.value));
      } else {
        this.appointmentDate := None;
        this.appointmentTimeOnly := None;
        this.endTime := None;
      }
    }

    /** The no-argument constructor: every reference null, status 0. */
    constructor Empty()
      ensures View() == Construct(None, None, None, None, None, None, None, None, None, 0)
      ensures DerivedAgree()
    {
      id, doctorId, doctorName, patientId := None, None, None, None;
      patientName, patientEmail, patientPhone, patientAddress := None, None, None, None;
      appointmentTime, status := None, 0;
      appointmentDate, appointmentTimeOnly, endTime := None, None, None;
    }

    /** setAppointmentTime: stores the time and, for a non-null one only,
        recomputes the derived fields; a null time leaves them as they were. */
    method SetAppointmentTime(t: Option<LocalDateTime>)
      modifies this
      ensures appointmentTime == t
      ensures t.Some? ==> && appointmentDate == Some(t.value.date)
                          && appointmentTimeOnly == Some(t.value.time)
                          && endTime == Some(PlusOneHour(t.value))
      ensures t.None? ==> && appointmentDate == old(appointmentDate)
                          && appointmentTimeOnly == old(appointmentTimeOnly)
                          && endTime == old(endTime)
      ensures View() == old(View()).(appointmentTime := appointmentTime, appointmentDate := appointmentDate,
                                     appointmentTimeOnly := appointmentTimeOnly, endTime := endTime)
      ensures DerivedAgree()
    {
      appointmentTime := t;
      if t.Some? {
        appointmentDate := Some(t.value.date);
        appointmentTimeOnly := Some(t.value.time);
        endTime := Some(PlusOneHour(t.value));
      }
    }

    // The remaining setters each assign one field; their frames leave the
    // derived fields, and everything else, as they were.

    method SetId(v: Option<nat>)
      modifies this`id
      ensures View() == old(View()).(id := v)
    {
      id := v;
    }

    method SetDoctorId(v: Option<nat>)
      modifies this`doctorId
      ensures View() == old(View()).(doctorId := v)
    {
      doctorId := v;
    }

    method SetDoctorName(v: Option<string>)
      modifies this`doctorName
      ensures View() == old(View()).(doctorName := v)
    {
      doctorName := v;
    }

    method SetPatientId(v: Option<nat>)
      modifies this`patientId
      ensures View() == old(View()).(patientId := v)
    {
      patientId := v;
    }

    method SetPatientName(v: Option<string>)
      modifies this`patientName
      ensures View() == old(View()).(patientName := v)
    {
      patientName := v;
    }

    method SetPatientEmail(v: Option<string>)
      modifies this`patientEmail
      ensures View() == old(View()).(patientEmail := v)
    {
      patientEmail := v;
    }

    method SetPatientPhone(v: Option<string>)
      modifies this`patientPhone
      ensures View() == old(View()).(patientPhone := v)
    {
      patientPhone := v;
    }

    method SetPatientAddress(v: Option<string>)
      modifies this`patientAddress
      ensures View() == old(View()).(patientAddress := v)
    {
      patientAddress := v;
    }

    method SetStatus(v: int)
      modifies this`status
      ensures View() == old(View()).(status := v)
      ensures old(DerivedAgree()) ==> DerivedAgree()
    {
      status := v;
    }
  }
}
