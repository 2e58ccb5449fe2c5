/** DoctorService: a doctor's free slots on a day, the AM/PM bucketing of
    slot labels, the doctor filters, and the admin operations that add,
    change and remove doctors. */
module DoctorService {
  import opened Wrappers
  import opened Seqs
  import opened Text
  import opened Times
  import opened Models
  import opened Database
  import opened Responses
  import opened DoctorRepository
  import opened AppointmentRepository
  import opened Passwords
  import opened Storage

  // ---------------------------------------------------------------------
  // Availability

  /** Some appointment of the doctor starts on that date at a time whose
      label is `slot`; its status does not matter. */
  ghost predicate BookedAt(db: Db, doctorId: nat, date: LocalDate, slot: string) {
    exists a :: a in db.appointments && a.doctor == Some(doctorId) && a.time.Some?
      && a.time.value.date == date && Label(a.time.value.time) == slot
  }

  /** The labels of the start times of appointments that have one. */
  function StartLabels(rows: seq<Appointment>): (r: seq<string>)
    requires forall a :: a in rows ==> a.time.Some?
    ensures forall l :: l in r <==> exists a :: a in rows && Label(a.time.value.time) == l
  {
    if rows == [] then []
    else
      assert forall a :: a in rows[1..] ==> a in rows;
      [Label(rows[0].time.value.time)] + StartLabels(rows[1..])
  }

  /** The labels the day's bookings of the doctor occupy: the day window
      from 00:00 to LocalTime.MAX, both ends included. */
  function BookedLabels(db: Db, doctorId: nat, date: LocalDate): (r: seq<string>)
    ensures forall l :: l in r <==> BookedAt(db, doctorId, date, l)
  {
    var rows := FindByDoctorIdAndAppointmentTimeBetween(db.appointments, doctorId, StartOfDay(date), EndOfDay(date));
    forall a | a in db.appointments && a.time.Some?
      ensures TimeBetween(a, StartOfDay(date), EndOfDay(date)) <==> a.time.value.date == date
    {
      InDayWindowIff(a.time.value, date);
    }
    StartLabels(rows)
  }

  function NotIn(booked: seq<string>): string -> bool {
    (s: string) => !(s in booked)
  }

  /** getDoctorAvailability: the doctor's published slots, in order and
      with repeats, except those equal to the label of a booking on that
      date; an unknown doctor has none. */
  function GetDoctorAvailability(db: Db, doctorId: nat, date: LocalDate): (r: seq<string>)
    ensures FindDoctorById(db.doctors, doctorId).None? ==> r == []
    ensures forall s :: s in r <==>
      && FindDoctorById(db.doctors, doctorId).Some?
      && s in FindDoctorById(db.doctors, doctorId).value.availableTimes
      && !BookedAt(db, doctorId, date, s)
  {
    var doctor := FindDoctorById(db.doctors, doctorId);
    if doctor.None? then []
    else Filter(doctor.value.availableTimes, NotIn(BookedLabels(db, doctorId, date)))
  }

  /** Each published slot that is not booked appears in the availability as
      often as it is published, in the published order. */
  lemma AvailabilityKeepsOrderAndRepeats(db: Db, doctorId: nat, date: LocalDate, s: string)
    requires FindDoctorById(db.doctors, doctorId).Some?
    ensures IsSubsequence(GetDoctorAvailability(db, doctorId, date), FindDoctorById(db.doctors, doctorId).value.availableTimes)
    ensures multiset(GetDoctorAvailability(db, doctorId, date))[s] ==
      if BookedAt(db, doctorId, date, s) then 0 else multiset(FindDoctorById(db.doctors, doctorId).value.availableTimes)[s]
  {
    var slots := FindDoctorById(db.doctors, doctorId).value.availableTimes;
    var booked := BookedLabels(db, doctorId, date);
    FilterIsSubsequence(slots, NotIn(booked));
    FilterCounts(slots, NotIn(booked), s);
  }

  // ---------------------------------------------------------------------
  // AM/PM bucketing

  /** Integer.parseInt(time.split(":")[0]). */
  function ParseHour(time: string): (r: Result<int>)
    ensures r.Returns? ==> SplitColonFirst(time).Returns? && ParseInt(SplitColonFirst(time).value) == r
    ensures r.Throws? <==> SplitColonFirst(time).Throws? || ParseInt(SplitColonFirst(time).value).Throws?
  {
    var head := SplitColonFirst(time);
    if head.Throws? then Throws(head.exception) else ParseInt(head.value)
  }

  /** isTimeInPeriod: "AM" (any case) holds for hours below 12, "PM" for the
      others, any other period for none; the hour is parsed first, so a
      label without a numeric hour throws whatever the period. */
  function IsTimeInPeriod(time: string, period: string): (r: Result<bool>)
    ensures r.Throws? <==> ParseHour(time).Throws?
    ensures r.Returns? ==> (r.value <==>
      || (EqualsIgnoreCase("AM", period) && ParseHour(time).value < 12)
      || (EqualsIgnoreCase("PM", period) && ParseHour(time).value >= 12))
  {
    var hour := ParseHour(time);
    if hour.Throws? then Throws(hour.exception)
    else if EqualsIgnoreCase("AM", period) then Returns(hour.value < 12)
    else if EqualsIgnoreCase("PM", period) then Returns(hour.value >= 12)
    else Returns(false)
  }

  /** On a label of a time of day, "am" and "pm" (any case) split the day at
      noon and never throw. */
  lemma {:induction false} LabelPeriod(t: LocalTime)
    ensures IsTimeInPeriod(Label(t), "AM") == Returns(t.hour < 12)
    ensures IsTimeInPeriod(Label(t), "am") == Returns(t.hour < 12)
    ensures IsTimeInPeriod(Label(t), "PM") == Returns(t.hour >= 12)
    ensures IsTimeInPeriod(Label(t), "pm") == Returns(t.hour >= 12)
  {
    LabelHourParses(t);
    assert EqualsIgnoreCase("AM", "am") && !EqualsIgnoreCase("AM", "PM") && !EqualsIgnoreCase("AM", "pm");
    assert EqualsIgnoreCase("PM", "pm");
  }

  /** anyMatch(t -> isTimeInPeriod(t, period)) over the slots in order: it
      stops at the first slot in the period, and an exception from a slot
      examined before that escapes. */
  function AnySlotInPeriod(slots: seq<string>, period: string): (r: Result<bool>)
    ensures r == Returns(true) ==> exists s :: s in slots && IsTimeInPeriod(s, period) == Returns(true)
    ensures r == Returns(false) <==> forall s :: s in slots ==> IsTimeInPeriod(s, period) == Returns(false)
    ensures r.Throws? ==> exists s :: s in slots && IsTimeInPeriod(s, period).Throws?
    ensures (forall s :: s in slots ==> IsTimeInPeriod(s, period).Returns?) ==> r.Returns?
    ensures r == Returns(true) <==> exists i :: DecidedAt(slots, period, i) && IsTimeInPeriod(slots[i], period) == Returns(true)
    ensures r.Throws? <==> exists i :: DecidedAt(slots, period, i) && IsTimeInPeriod(slots[i], period).Throws?
  {
    if slots == [] then Returns(false)
    else
      var first := IsTimeInPeriod(slots[0], period);
      assert forall s :: s in slots[1..] ==> s in slots;
      if first.Throws? then
        assert DecidedAt(slots, period, 0);
        Throws(first.exception)
      else if first.value then
        assert DecidedAt(slots, period, 0);
        Returns(true)
      else
        var rest := AnySlotInPeriod(slots[1..], period);
        assert rest == Returns(false) ==> forall s :: s in slots ==> s == slots[0] || s in slots[1..];
        DecidedAtTail(slots, period);
        rest
  }

  /** Slot `i` is the first whose test does not answer false: anyMatch
      stops there, with true or with the exception. */
  ghost predicate DecidedAt(slots: seq<string>, period: string, i: int) {
    && 0 <= i < |slots| && IsTimeInPeriod(slots[i], period) != Returns(false)
    && forall j :: 0 <= j < i ==> IsTimeInPeriod(slots[j], period) == Returns(false)
  }

  /** Past a first slot that answers false, the deciding slot moves one on,
      with the same answer. */
  lemma DecidedAtTail(slots: seq<string>, period: string)
    requires slots != [] && IsTimeInPeriod(slots[0], period) == Returns(false)
    ensures forall i :: DecidedAt(slots, period, i) <==> i >= 1 && DecidedAt(slots[1..], period, i - 1)
    ensures (exists i :: DecidedAt(slots, period, i) && IsTimeInPeriod(slots[i], period) == Returns(true))
      <==> (exists i :: DecidedAt(slots[1..], period, i) && IsTimeInPeriod(slots[1..][i], period) == Returns(true))
    ensures (exists i :: DecidedAt(slots, period, i) && IsTimeInPeriod(slots[i], period).Throws?)
      <==> (exists i :: DecidedAt(slots[1..], period, i) && IsTimeInPeriod(slots[1..][i], period).Throws?)
  {
    forall i ensures DecidedAt(slots, period, i) <==> i >= 1 && DecidedAt(slots[1..], period, i - 1) {
      if i >= 1 && DecidedAt(slots[1..], period, i - 1) {
        forall j | 0 <= j < i ensures IsTimeInPeriod(slots[j], period) == Returns(false) {
          if j > 0 {
            assert slots[j] == slots[1..][j - 1];
          }
        }
      }
      if DecidedAt(slots, period, i) {
        forall j | 0 <= j < i - 1 ensures IsTimeInPeriod(slots[1..][j], period) == Returns(false) {
          assert slots[1..][j] == slots[j + 1];
        }
      }
    }
    if i :| DecidedAt(slots[1..], period, i) {
      assert slots[1..][i] == slots[i + 1];
      assert DecidedAt(slots, period, i + 1);
    }
  }

  /** The doctor publishes a slot in the period. */
  ghost predicate HasSlotIn(d: Doctor, period: string) {
    exists s :: s in d.availableTimes && IsTimeInPeriod(s, period) == Returns(true)
  }

  /** filterListByTime: the doctors, in order, with at least one slot in the
      period; the first exception met escapes. */
  function FilterListByTime(doctors: seq<Doctor>, period: string): (r: Result<seq<Doctor>>)
    ensures r.Returns? ==> forall d :: d in r.value <==> d in doctors && HasSlotIn(d, period)
    ensures r.Returns? ==> |r.value| <= |doctors|
    ensures r.Throws? <==> exists d :: d in doctors && AnySlotInPeriod(d.availableTimes, period).Throws?
    ensures (forall d :: d in doctors ==> AnySlotInPeriod(d.availableTimes, period).Returns?) ==> r.Returns?
  {
    if doctors == [] then Returns([])
    else
      var keep := AnySlotInPeriod(doctors[0].availableTimes, period);
      if keep.Throws? then
        assert doctors[0] in doctors;
        Throws(keep.exception)
      else
        var rest := FilterListByTime(doctors[1..], period);
        assert forall d :: d in doctors <==> d == doctors[0] || d in doctors[1..];
        if rest.Throws? then Throws(rest.exception)
        else Returns((if keep.value then [doctors[0]] else []) + rest.value)
  }

  /** The time filter keeps the doctors in list order. */
  lemma {:induction false} FilterListByTimeKeepsOrder(doctors: seq<Doctor>, period: string)
    requires FilterListByTime(doctors, period).Returns?
    ensures IsSubsequence(FilterListByTime(doctors, period).value, doctors)
  {
    if doctors != [] {
      var keep := AnySlotInPeriod(doctors[0].availableTimes, period);
      var rest := FilterListByTime(doctors[1..], period);
      assert keep.Returns? && rest.Returns?;
      FilterListByTimeKeepsOrder(doctors[1..], period);
      SubsequenceOfTail(rest.value, doctors);
      assert FilterListByTime(doctors, period).value == (if keep.value then [doctors[0]] else []) + rest.value;
      if !keep.value {
        assert [] + rest.value == rest.value;
      }
    }
  }

  /** A doctor whose slots all carry a parsable hour never makes the time
      filter throw; labels of times of day are such slots. */
  lemma {:induction false} LabelSlotsNeverThrow(doctors: seq<Doctor>, period: string)
    requires forall d, s :: d in doctors && s in d.availableTimes ==> exists t: LocalTime :: s == Label(t)
    ensures FilterListByTime(doctors, period).Returns?
  {
    forall d | d in doctors ensures AnySlotInPeriod(d.availableTimes, period).Returns? {
      forall s | s in d.availableTimes ensures IsTimeInPeriod(s, period).Returns? {
        var t: LocalTime :| s == Label(t);
        LabelHourParses(t);
      }
    }
  }

  // ---------------------------------------------------------------------
  // Doctor filters: every result is a map with the single key "doctors".

  function WrapDoctors(doctors: seq<Doctor>): (r: map<string, seq<Doctor>>)
    ensures r.Keys == {"doctors"} && r["doctors"] == doctors
  {
    map["doctors" := doctors]
  }

  function WrapResult(r: Result<seq<Doctor>>): (w: Result<map<string, seq<Doctor>>>)
    ensures w.Throws? <==> r.Throws?
    ensures w.Returns? ==> w.value.Keys == {"doctors"} && w.value["doctors"] == r.value
  {
    if r.Throws? then Throws(r.exception) else Returns(WrapDoctors(r.value))
  }

  /** getDoctors: all doctors. */
  function GetDoctors(db: Db): (r: seq<Doctor>)
    ensures forall d :: d in r <==> d in db.doctors
  {
    db.doctors
  }

  /** findDoctorByName: case-sensitive name containment. */
  function FindDoctorByName(db: Db, name: string): (r: map<string, seq<Doctor>>)
    ensures r.Keys == {"doctors"}
    ensures forall d :: d in r["doctors"] <==> d in db.doctors && Contains(d.name, name)
  {
    WrapDoctors(FindByNameLike(db.doctors, name))
  }

  /** filterDoctorsByNameSpecilityandTime. */
  function FilterDoctorsByNameSpecilityandTime(db: Db, name: string, specialty: string, time: string): (r: Result<map<string, seq<Doctor>>>)
    ensures r.Returns? ==> r.value.Keys == {"doctors"}
    ensures r.Returns? ==> forall d :: d in r.value["doctors"] <==>
      d in db.doctors && ContainsIgnoreCase(d.name, name) && EqualsIgnoreCase(d.specialty, specialty) && HasSlotIn(d, time)
    ensures (forall d :: d in db.doctors ==> AnySlotInPeriod(d.availableTimes, time).Returns?) ==> r.Returns?
    ensures r.Throws? <==>
      exists d :: d in db.doctors && ContainsIgnoreCase(d.name, name) && EqualsIgnoreCase(d.specialty, specialty)
        && AnySlotInPeriod(d.availableTimes, time).Throws?
  {
    WrapResult(FilterListByTime(FindByNameContainingIgnoreCaseAndSpecialtyIgnoreCase(db.doctors, name, specialty), time))
  }

  /** filterDoctorsByTime: every doctor, by period. */
  function FilterDoctorsByTime(db: Db, time: string): (r: Result<map<string, seq<Doctor>>>)
    ensures r.Returns? ==> r.value.Keys == {"doctors"}
    ensures r.Returns? ==> forall d :: d in r.value["doctors"] <==> d in db.doctors && HasSlotIn(d, time)
    ensures (forall d :: d in db.doctors ==> AnySlotInPeriod(d.availableTimes, time).Returns?) ==> r.Returns?
    ensures r.Throws? <==> exists d :: d in db.doctors && AnySlotInPeriod(d.availableTimes, time).Throws?
  {
    WrapResult(FilterListByTime(db.doctors, time))
  }

  /** filterDoctorByNameAndTime: case-sensitive name containment, then period. */
  function FilterDoctorByNameAndTime(db: Db, name: string, time: string): (r: Result<map<string, seq<Doctor>>>)
    ensures r.Returns? ==> r.value.Keys == {"doctors"}
    ensures r.Returns? ==> forall d :: d in r.value["doctors"] <==> d in db.doctors && Contains(d.name, name) && HasSlotIn(d, time)
    ensures (forall d :: d in db.doctors ==> AnySlotInPeriod(d.availableTimes, time).Returns?) ==> r.Returns?
    ensures r.Throws? <==> exists d :: d in db.doctors && Contains(d.name, name) && AnySlotInPeriod(d.availableTimes, time).Throws?
  {
    WrapResult(FilterListByTime(FindByNameLike(db.doctors, name), time))
  }

  /** filterDoctorByNameAndSpecility. */
  function FilterDoctorByNameAndSpecility(db: Db, name: string, specialty: string): (r: map<string, seq<Doctor>>)
    ensures r.Keys == {"doctors"}
    ensures forall d :: d in r["doctors"] <==>
      d in db.doctors && ContainsIgnoreCase(d.name, name) && EqualsIgnoreCase(d.specialty, specialty)
  {
    WrapDoctors(FindByNameContainingIgnoreCaseAndSpecialtyIgnoreCase(db.doctors, name, specialty))
  }

  /** filterDoctorByTimeAndSpecility. */
  function FilterDoctorByTimeAndSpecility(db: Db, time: string, specialty: string): (r: Result<map<string, seq<Doctor>>>)
    ensures r.Returns? ==> r.value.Keys == {"doctors"}
    ensures r.Returns? ==> forall d :: d in r.value["doctors"] <==>
      d in db.doctors && EqualsIgnoreCase(d.specialty, specialty) && HasSlotIn(d, time)
    ensures (forall d :: d in db.doctors ==> AnySlotInPeriod(d.availableTimes, time).Returns?) ==> r.Returns?
    ensures r.Throws? <==>
      exists d :: d in db.doctors && EqualsIgnoreCase(d.specialty, specialty) && AnySlotInPeriod(d.availableTimes, time).Throws?
  {
    WrapResult(FilterListByTime(FindBySpecialtyIgnoreCase(db.doctors, specialty), time))
  }

  /** filterDoctorBySpecility. */
  function FilterDoctorBySpecility(db: Db, specialty: string): (r: map<string, seq<Doctor>>)
    ensures r.Keys == {"doctors"}
    ensures forall d :: d in r["doctors"] <==> d in db.doctors && EqualsIgnoreCase(d.specialty, specialty)
  {
    WrapDoctors(FindBySpecialtyIgnoreCase(db.doctors, specialty))
  }

  // ---------------------------------------------------------------------
  // Admin operations. `storageOk` is false when the database call throws.

  /** The row saveDoctor stores: the next id and the hashed password. */
  function NewDoctorRow(db: Db, doctor: Doctor): (d: Doctor)
    ensures d.id == Some(db.nextDoctorId) && d.password == HashStored(doctor.password)
    ensures d.(id := doctor.id, password := doctor.password) == doctor
  {
    doctor.(id := Some(db.nextDoctorId), password := HashStored(doctor.password))
  }

  /** saveDoctor: -1 and nothing stored when the email is already taken, 1
      after storing the doctor, 0 when a database call throws. */
  function SaveDoctorOutcome(db: Db, doctor: Doctor, storageOk: bool): (r: Step<int>)
    ensures r.result in {-1, 0, 1}
    ensures r.result == -1 <==> exists d :: d in db.doctors && d.email == doctor.email && FindByEmail(db.doctors, doctor.email).Returns?
    ensures r.result == 1 <==> storageOk && forall d :: d in db.doctors ==> d.email != doctor.email
    ensures r.result != 1 ==> r.db == db
    ensures r.result == 1 ==> r.db == db.(doctors := db.doctors + [NewDoctorRow(db, doctor)], nextDoctorId := db.nextDoctorId + 1)
  {
    var existing := FindByEmail(db.doctors, doctor.email);
    if existing.Throws? then Step(0, db)
    else if existing.value.Some? then Step(-1, db)
    else if !storageOk then Step(0, db)
    else Step(1, db.(doctors := db.doctors + [NewDoctorRow(db, doctor)], nextDoctorId := db.nextDoctorId + 1))
  }

  /** The stored doctor after updateDoctor: name, phone, specialty and slots
      from the request; the password only when a non-empty one is given;
      id and email as stored. */
  function UpdatedDoctor(existing: Doctor, request: Doctor): (d: Doctor)
    ensures d.id == existing.id && d.email == existing.email
    ensures d.name == request.name && d.phone == request.phone
    ensures d.specialty == request.specialty && d.availableTimes == request.availableTimes
    ensures request.password.Some? && request.password.value != "" ==> d.password == HashStored(request.password)
    ensures request.password.None? || request.password.value == "" ==> d.password == existing.password
  {
    existing.(name := request.name, phone := request.phone, specialty := request.specialty,
              availableTimes := request.availableTimes,
              password := if request.password.Some? && request.password.value != "" then HashStored(request.password)
                          else existing.password)
  }

  /** updateDoctor: -1 for an id no doctor has, 1 after overwriting the
      stored row, 0 when the request has no id or a database call throws. */
  function UpdateDoctorOutcome(db: Db, doctor: Doctor, storageOk: bool): (r: Step<int>)
    ensures r.result in {-1, 0, 1}
    ensures r.result == -1 <==> doctor.id.Some? && FindDoctorById(db.doctors, doctor.id.value).None?
    ensures r.result == 1 <==> storageOk && doctor.id.Some? && FindDoctorById(db.doctors, doctor.id.value).Some?
    ensures r.result != 1 ==> r.db == db
    ensures r.result == 1 ==> r.db == db.(doctors := ReplaceDoctor(db.doctors,
      UpdatedDoctor(FindDoctorById(db.doctors, doctor.id.value).value, doctor)))
  {
    if doctor.id.None? then Step(0, db)
    else
      var existing := FindDoctorById(db.doctors, doctor.id.value);
      if existing.None? then Step(-1, db)
      else if !storageOk then Step(0, db)
      else Step(1, db.(doctors := ReplaceDoctor(db.doctors, UpdatedDoctor(existing.value, doctor))))
  }

  /** deleteDoctor: -1 for an unknown id; otherwise the doctor's
      appointments and then the doctor are removed and the result is 1; 0
      when the id is null or a database call throws. */
  function DeleteDoctorOutcome(db: Db, id: Option<nat>, storageOk: bool): (r: Step<int>)
    ensures r.result in {-1, 0, 1}
    ensures r.result == -1 <==> id.Some? && FindDoctorById(db.doctors, id.value).None?
    ensures r.result == 1 <==> storageOk && id.Some? && FindDoctorById(db.doctors, id.value).Some?
    ensures r.result != 1 ==> r.db == db
    ensures r.result == 1 ==> forall d :: d in r.db.doctors <==> d in db.doctors && d.id != id
    ensures r.result == 1 ==> forall a :: a in r.db.appointments <==> a in db.appointments && a.doctor != id
    ensures r.result == 1 ==> r.db == db.(doctors := r.db.doctors, appointments := r.db.appointments)
  {
    if id.None? then Step(0, db)
    else if FindDoctorById(db.doctors, id.value).None? then Step(-1, db)
    else if !storageOk then Step(0, db)
    else Step(1, db.(appointments := DeleteAllByDoctorId(db.appointments, id.value),
                     doctors := Filter(db.doctors, OtherDoctor(id.value))))
  }

  /** validateDoctor: the token issued for the doctor when the email is
      registered and the password checks, "Invalid Credentials" otherwise.
      The token comes from a generateToken overload TokenService does not
      declare, so it is the parameter `issued`. A null email selects the
      doctors whose email is null, and no stored doctor has one; a null
      password reaches checkPassword as `raw` and throws there once a doctor
      is found. */
  function ValidateDoctor(db: Db, login: Login, issued: string): (r: Result<string>)
    ensures login.email.None? ==> r == Returns("Invalid Credentials")
    ensures login.email.Some? && login.password.Some?
      && (exists d: Doctor :: FindByEmail(db.doctors, login.email.value) == Returns(Some(d)) && CheckPassword(login.password.value, d.password))
      ==> r == Returns(issued)
    ensures r.Returns? && r.value != issued ==> r.value == "Invalid Credentials"
    ensures login.email.Some? && FindByEmail(db.doctors, login.email.value).Returns?
      && (forall d :: d in db.doctors && d.email == login.email.value ==> login.password.Some? && !CheckPassword(login.password.value, d.password))
      ==> r == Returns("Invalid Credentials")
    ensures r.Throws? <==>
      && login.email.Some?
      && (|| FindByEmail(db.doctors, login.email.value).Throws?
          || (FindByEmail(db.doctors, login.email.value).Returns? && FindByEmail(db.doctors, login.email.value).value.Some? && login.password.None?))
    ensures login.email.Some? && login.password.None? && FindByEmail(db.doctors, login.email.value).Returns?
      && FindByEmail(db.doctors, login.email.value).value.Some?
      ==> r == Throws("NullPointerException")
  {
    if login.email.None? then Returns("Invalid Credentials")
    else
      var found := FindByEmail(db.doctors, login.email.value);
      if found.Throws? then Throws(found.exception)
      else if found.value.None? then Returns("Invalid Credentials")
      else if login.password.None? then Throws("NullPointerException")
      else if CheckPassword(login.password.value, found.value.value.password) then Returns(issued)
      else Returns("Invalid Credentials")
  }

  // ---------------------------------------------------------------------
  // The admin operations performed on a Store.

  /** saveDoctor on the store, with the effect SaveDoctorOutcome states. */
  method SaveDoctor(store: Store, doctor: Doctor, storageOk: bool) returns (r: int)
    modifies store
    ensures Step(r, store.Snapshot()) == SaveDoctorOutcome(old(store.Snapshot()), doctor, storageOk)
  {
    var existing := FindByEmail(store.doctors, doctor.email);
    if existing.Throws? {
      return 0;
    }
    if existing.value.Some? {
      return -1;
    }
    if !storageOk {
      return 0;
    }
    var _ := store.InsertDoctor(doctor.(password := HashStored(doctor.password)));
    return 1;
  }

  /** updateDoctor on the store, with the effect UpdateDoctorOutcome states. */
  method UpdateDoctor(store: Store, doctor: Doctor, storageOk: bool) returns (r: int)
    modifies store
    ensures Step(r, store.Snapshot()) == UpdateDoctorOutcome(old(store.Snapshot()), doctor, storageOk)
  {
    if doctor.id.None? {
      return 0;
    }
    var existing := FindDoctorById(store.doctors, doctor.id.value);
    if existing.None? {
      return -1;
    }
    if !storageOk {
      return 0;
    }
    store.ReplaceDoctorRow(UpdatedDoctor(existing.value, doctor));
    return 1;
  }

  /** deleteDoctor on the store, with the effect DeleteDoctorOutcome states. */
  method DeleteDoctor(store: Store, id: Option<nat>, storageOk: bool) returns (r: int)
    modifies store
    ensures Step(r, store.Snapshot()) == DeleteDoctorOutcome(old(store.Snapshot()), id, storageOk)
  {
    if id.None? {
      return 0;
    }
    if FindDoctorById(store.doctors, id.value).None? {
      return -1;
    }
    if !storageOk {
      return 0;
    }
    store.DeleteAppointmentsOfDoctor(id.value);
    store.DeleteDoctorRow(id.value);
    return 1;
  }
}
