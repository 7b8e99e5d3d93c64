/** The appointment core as one object over its two tables and the
    notification log.  Each operation loads the record it works on, checks
    it, changes the loaded copy and writes it back, as the source does with
    its documents; each is tied by its postcondition to the step function
    that specifies it, and keeps the object invariant `Valid`. */
module ClinicDb {
  import opened Records
  import opened Text
  import opened QueueCodes
  import opened Appointments
  import opened Availability
  import opened Notifications
  import opened Queries

  /** The records of `t` under `ids`, in that order. */
  function InOrder(t: Table, ids: seq<string>): (r: seq<Appointment>)
    requires forall i :: 0 <= i < |ids| ==> ids[i] in t
    ensures |r| == |ids| && forall i :: 0 <= i < |ids| ==> r[i] == t[ids[i]]
  {
    if ids == [] then [] else [t[ids[0]]] + InOrder(t, ids[1..])
  }

  /** The ids among `ids` whose stored record passes the queue filter. */
  ghost function QueuedIds(t: Table, ids: seq<string>, patientId: string): set<string> {
    set id | id in ids && id in t && InPatientQueue(t[id], patientId)
  }

  /** Dropping the last id drops it from the passing ids, if it passed. */
  lemma QueuedIdsLast(t: Table, ids: seq<string>, patientId: string)
    requires ids != []
    ensures var n := |ids|;
      QueuedIds(t, ids, patientId) ==
        QueuedIds(t, ids[..n - 1], patientId) + (if ids[n - 1] in t && InPatientQueue(t[ids[n - 1]], patientId) then {ids[n - 1]} else {})
  {
    var n := |ids|;
    assert forall id :: id in ids <==> id in ids[..n - 1] || id == ids[n - 1];
  }

  /** Over distinct stored ids, the passing positions of the records in
      that order are as many as the passing ids. */
  lemma {:induction false} QueuedCount(t: Table, ids: seq<string>, patientId: string)
    requires forall i :: 0 <= i < |ids| ==> ids[i] in t
    requires forall i, j :: 0 <= i < j < |ids| ==> ids[i] != ids[j]
    ensures |QueuedIndices(InOrder(t, ids), patientId)| == |QueuedIds(t, ids, patientId)|
  {
    var records := InOrder(t, ids);
    if ids == [] {
      assert QueuedIndices(records, patientId) == {};
    } else {
      var n := |ids|;
      var front := ids[..n - 1];
      assert records[..n - 1] == InOrder(t, front);
      QueuedIndicesLast(records, patientId);
      QueuedIdsLast(t, ids, patientId);
      QueuedCount(t, front, patientId);
      assert ids[n - 1] !in front;
    }
  }

  /** The ids among `ids` whose stored record passes the queue filter and
      shows the entry `e`. */
  ghost function EntryIds(t: Table, ids: seq<string>, patientId: string, e: QueueEntry): set<string> {
    set id | id in ids && id in t && InPatientQueue(t[id], patientId) && EntryFor(t[id]) == e
  }

  /** Dropping the last id drops it from the ids showing `e`, if it passed
      and shows `e`. */
  lemma EntryIdsLast(t: Table, ids: seq<string>, patientId: string, e: QueueEntry)
    requires ids != []
    ensures var n := |ids|; var x := ids[n - 1];
      EntryIds(t, ids, patientId, e) ==
        EntryIds(t, ids[..n - 1], patientId, e)
        + (if x in t && InPatientQueue(t[x], patientId) && EntryFor(t[x]) == e then {x} else {})
  {
    var n := |ids|;
    assert forall id :: id in ids <==> id in ids[..n - 1] || id == ids[n - 1];
  }

  /** Over distinct stored ids, the passing positions showing `e` of the
      records in that order are as many as the passing ids showing `e`. */
  lemma {:induction false} EntryCount(t: Table, ids: seq<string>, patientId: string, e: QueueEntry)
    requires forall i :: 0 <= i < |ids| ==> ids[i] in t
    requires forall i, j :: 0 <= i < j < |ids| ==> ids[i] != ids[j]
    ensures |EntryIndices(InOrder(t, ids), patientId, e)| == |EntryIds(t, ids, patientId, e)|
  {
    var records := InOrder(t, ids);
    if ids == [] {
      assert EntryIndices(records, patientId, e) == {};
    } else {
      var n := |ids|;
      var front := ids[..n - 1];
      assert records[..n - 1] == InOrder(t, front);
      EntryIndicesLast(records, patientId);
      EntryIdsLast(t, ids, patientId, e);
      EntryCount(t, front, patientId, e);
      assert ids[n - 1] !in front;
    }
  }

  /** The queue of a store listed in an order naming each stored id once:
      one entry per stored appointment of the patient that is confirmed and
      checked in (each entry as often as such appointments show it), no
      other entry, and a queue number in each. */
  lemma StoredQueue(t: Table, order: seq<string>, patientId: string)
    requires ValidTable(t)
    requires forall i :: 0 <= i < |order| ==> order[i] in t
    requires forall id :: id in t ==> id in order
    requires forall i, j :: 0 <= i < j < |order| ==> order[i] != order[j]
    ensures var r := PatientQueue(InOrder(t, order), patientId);
      && (forall id :: id in t && InPatientQueue(t[id], patientId) ==> EntryFor(t[id]) in r)
      && (forall e :: e in r ==> exists id :: id in t && InPatientQueue(t[id], patientId) && e == EntryFor(t[id]))
      && (forall e :: e in r ==> e.patientId == patientId && e.queueNumber != "")
      && |r| == |set id | id in t && InPatientQueue(t[id], patientId)|
      && forall e :: multiset(r)[e] == |set id | id in t && InPatientQueue(t[id], patientId) && EntryFor(t[id]) == e|
  {
    var records := InOrder(t, order);
    StoredRecords(t, order);
    QueuedEntriesHaveNumbers(records, patientId);
    QueuedCount(t, order, patientId);
    AllQueuedIds(t, order, patientId);
    StoredEntryCounts(t, order, patientId);
  }

  /** Over an order naming each stored id once, the passing records showing
      an entry are as many as the stored passing appointments showing it. */
  lemma StoredEntryCounts(t: Table, order: seq<string>, patientId: string)
    requires forall i :: 0 <= i < |order| ==> order[i] in t
    requires forall id :: id in t ==> id in order
    requires forall i, j :: 0 <= i < j < |order| ==> order[i] != order[j]
    ensures forall e ::
      |EntryIndices(InOrder(t, order), patientId, e)| == |set id | id in t && InPatientQueue(t[id], patientId) && EntryFor(t[id]) == e|
  {
    forall e
      ensures |EntryIndices(InOrder(t, order), patientId, e)|
        == |set id | id in t && InPatientQueue(t[id], patientId) && EntryFor(t[id]) == e|
    {
      EntryCount(t, order, patientId, e);
      assert EntryIds(t, order, patientId, e) == set id | id in t && InPatientQueue(t[id], patientId) && EntryFor(t[id]) == e;
    }
  }

  /** The records in that order are exactly the stored records. */
  lemma StoredRecords(t: Table, order: seq<string>)
    requires forall i :: 0 <= i < |order| ==> order[i] in t
    requires forall id :: id in t ==> id in order
    ensures forall id :: id in t ==> t[id] in InOrder(t, order)
    ensures forall a :: a in InOrder(t, order) ==> exists id :: id in t && a == t[id]
  {
    var records := InOrder(t, order);
    forall id | id in t ensures t[id] in records {
      var i :| 0 <= i < |order| && order[i] == id;
      assert records[i] == t[id];
    }
    forall a | a in records ensures exists id :: id in t && a == t[id] {
      var i :| 0 <= i < |records| && records[i] == a;
      assert a == t[order[i]];
    }
  }

  /** When the order names every stored id, its passing ids are all of them. */
  lemma AllQueuedIds(t: Table, order: seq<string>, patientId: string)
    requires forall id :: id in t ==> id in order
    ensures QueuedIds(t, order, patientId) == set id | id in t && InPatientQueue(t[id], patientId)
  {
  }

  class Clinic {
    /** The appointment store, keyed by `appointmentId`. */
    var appointments: Table
    /** The keys of `appointments` in the order they were booked. */
    var order: seq<string>
    /** The doctor directory, keyed by `doctorId`. */
    var doctors: Doctors
    var notifications: seq<Notification>

    ghost predicate Valid()
      reads this
    {
      && ValidTable(appointments)
      && ValidDoctors(doctors)
      && (forall i :: 0 <= i < |order| ==> order[i] in appointments)
      && (forall id :: id in appointments ==> id in order)
      && (forall i, j :: 0 <= i < j < |order| ==> order[i] != order[j])
    }

    constructor ()
      ensures Valid()
      ensures appointments == map[] && order == [] && doctors == map[] && notifications == []
    {
      appointments, order, doctors, notifications := map[], [], map[], [];
    }

    /** The stored appointments in booking order. */
    function BookedRecords(): (r: seq<Appointment>)
      reads this
      requires Valid()
      ensures |r| == |order| && forall i :: 0 <= i < |order| ==> r[i] == appointments[order[i]]
    {
      InOrder(appointments, order)
    }

    /** `bookAppointment(patientId, doctorId, dateTime)`; `newId` is the
        generated appointment id. */
    method BookAppointment(patientId: string, doctorId: string, dateTime: Option<int>, now: int, newId: string)
      returns (r: Result<string>)
      requires Valid()
      modifies this`appointments, this`order
      ensures Valid()
      ensures Step(r, appointments) == Book(old(appointments), patientId, doctorId, dateTime, now, newId)
      ensures order == if r.Ok? then old(order) + [newId] else old(order)
    {
      if patientId == "" || doctorId == "" || dateTime.None? {
        return Err(MissingBookingFields);
      }
      var appointmentDate := dateTime.value;
      if appointmentDate <= now {
        return Err(NotInFuture);
      }
      if newId in appointments {
        return Err(StoreRejected);
      }
      var appointment := Appointment(newId, patientId, doctorId, appointmentDate, Confirmed, now, "", false, None, None, None);
      appointments := appointments[newId := appointment];
      order := order + [newId];
      r := Ok(newId);
    }

    /** `cancelAppointment(appointmentId)`. */
    method CancelAppointment(id: string, now: int) returns (r: Result<int>)
      requires Valid()
      modifies this`appointments
      ensures Valid()
      ensures Step(r, appointments) == Cancel(old(appointments), id, now)
    {
      if id == "" {
        return Err(IdRequired);
      }
      if id !in appointments {
        return Err(NotFound);
      }
      var appointment := appointments[id];
      if appointment.status == Cancelled {
        return Err(AlreadyCancelled);
      }
      appointment := appointment.(status := Cancelled, cancelledAt := Some(now));
      appointments := appointments[id := appointment];
      r := Ok(now);
    }

    /** `modifyAppointment(appointmentId, newDateTime)`. */
    method ModifyAppointment(id: string, newDateTime: Option<int>, now: int) returns (r: Result<int>)
      requires Valid()
      modifies this`appointments
      ensures Valid()
      ensures Step(r, appointments) == Reschedule(old(appointments), id, newDateTime, now)
    {
      if id == "" || newDateTime.None? {
        return Err(MissingModifyFields);
      }
      if id !in appointments {
        return Err(NotFound);
      }
      var newAppointmentDate := newDateTime.value;
      if newAppointmentDate <= now {
        return Err(NotInFuture);
      }
      var appointment := appointments[id];
      appointment := appointment.(dateTime := newAppointmentDate, modifiedAt := Some(now));
      appointments := appointments[id := appointment];
      r := Ok(now);
    }

    /** `generateQueueNumber(appointmentId)`; `day` is today's day of the
        month and `random` the draw of `Math.random()`. */
    method GenerateQueueNumber(id: string, day: int, random: real) returns (r: Result<string>)
      requires Valid()
      requires 1 <= day <= 31 && 0.0 <= random < 1.0
      modifies this`appointments
      ensures Valid()
      ensures Step(r, appointments) == AssignQueueNumber(old(appointments), id, day, random)
    {
      if id == "" {
        return Err(IdRequired);
      }
      if id !in appointments {
        return Err(NotFound);
      }
      var appointment := appointments[id];
      if appointment.queueNumber != "" {
        return Ok(appointment.queueNumber);
      }
      var queueNumber := QueueCode(day, RandomSuffix(random));
      appointment := appointment.(queueNumber := queueNumber);
      appointments := appointments[id := appointment];
      r := Ok(queueNumber);
    }

    /** `checkInPatient(appointmentId)`.  A missing queue number is first
        allocated by `GenerateQueueNumber`, which stores it; the check-in
        then writes only `checkedIn` and `checkedInAt`, so the stored
        number stays. */
    method CheckInPatient(id: string, now: int, day: int, random: real) returns (r: Result<string>)
      requires Valid()
      requires 1 <= day <= 31 && 0.0 <= random < 1.0
      modifies this`appointments
      ensures Valid()
      ensures Step(r, appointments) == CheckIn(old(appointments), id, now, day, random)
    {
      if id == "" {
        return Err(IdRequired);
      }
      if id !in appointments {
        return Err(NotFound);
      }
      var appointment := appointments[id];
      if appointment.checkedIn {
        return Err(AlreadyCheckedIn);
      }
      var queueNumber := appointment.queueNumber;
      if queueNumber == "" {
        var generated := GenerateQueueNumber(id, day, random);
        queueNumber := generated.value;
      }
      appointment := appointments[id];
      appointment := appointment.(checkedIn := true, checkedInAt := Some(now));
      appointments := appointments[id := appointment];
      r := Ok(queueNumber);
    }

    /** `updateDoctorAvailability(doctorId, schedule)`; `now` stamps the
        entry's `updatedAt`. */
    method UpdateDoctorAvailability(doctorId: string, schedule: Option<ScheduleInput>, now: int)
      returns (r: Result<Schedule>)
      requires Valid()
      modifies this`doctors
      ensures Valid()
      ensures Step(r, doctors) == UpdateAvailability(old(doctors), doctorId, schedule, now)
    {
      if doctorId == "" {
        return Err(DoctorIdRequired);
      }
      if schedule.None? {
        return Err(ScheduleRequired);
      }
      var input := schedule.value;
      if input.date.None? || input.startTime.None? || input.endTime.None? || input.available.None? {
        return Err(IncompleteSchedule);
      }
      var doctor: Doctor;
      if doctorId in doctors {
        doctor := doctors[doctorId];
      } else {
        doctor := Doctor(doctorId, "Dr. " + doctorId, "General Medicine", []);
      }
      var existing := IndexOfDate(doctor.schedules, input.date.value);
      var scheduleData := Schedule(input.date.value, input.startTime.value, input.endTime.value, input.available.value, now);
      if existing >= 0 {
        doctor := doctor.(schedules := doctor.schedules[existing := scheduleData]);
      } else {
        doctor := doctor.(schedules := doctor.schedules + [scheduleData]);
      }
      doctors := doctors[doctorId := doctor];
      r := Ok(scheduleData);
    }

    /** `sendNotification(patientId, message)`; `newId` is the generated
        notification id and `now` the send time. */
    method SendNotification(patientId: string, message: string, now: int, newId: string)
      returns (r: Result<Notification>)
      requires Valid()
      modifies this`notifications
      ensures Valid()
      ensures Step(r, notifications) == Send(old(notifications), patientId, message, now, newId)
    {
      if patientId == "" {
        return Err(PatientIdRequired);
      }
      var text := Trim(message);
      if |text| == 0 {
        return Err(EmptyMessage);
      }
      var notification := Notification(newId, patientId, text, now);
      notifications := notifications + [notification];
      r := Ok(notification);
    }

    /** `getTimeSlots(doctorId, date)`: nothing for an unknown doctor, a
        date without a schedule or an unavailable schedule; otherwise the
        half-hour grid of the first schedule for that date. */
    method GetTimeSlots(doctorId: string, date: string) returns (slots: seq<int>)
      ensures var s := ScheduleFor(doctors, doctorId, date);
        if s.Some? && s.value.available then HalfHourGrid(slots, s.value.startTime, s.value.endTime)
        else slots == []
    {
      if doctorId !in doctors {
        return [];
      }
      var doctor := doctors[doctorId];
      var i := IndexOfDate(doctor.schedules, date);
      if i < 0 {
        return [];
      }
      var schedule := doctor.schedules[i];
      if !schedule.available {
        return [];
      }
      slots := HalfHourSlots(schedule.startTime, schedule.endTime);
    }

    /** `getPatientQueue(patientId)` over the store in booking order: every
        stored appointment of the patient that is confirmed and checked in
        is listed, nothing else is, and every entry shows a queue number. */
    function GetPatientQueue(patientId: string): (r: seq<QueueEntry>)
      reads this
      requires Valid()
      ensures forall id :: id in appointments && InPatientQueue(appointments[id], patientId) ==> EntryFor(appointments[id]) in r
      ensures forall e :: e in r ==> exists id :: id in appointments && InPatientQueue(appointments[id], patientId) && e == EntryFor(appointments[id])
      ensures forall e :: e in r ==> e.patientId == patientId && e.queueNumber != ""
      ensures |r| == |set id | id in appointments && InPatientQueue(appointments[id], patientId)|
      ensures forall e :: multiset(r)[e] == |set id | id in appointments && InPatientQueue(appointments[id], patientId) && EntryFor(appointments[id]) == e|
    {
      StoredQueue(appointments, order, patientId);
      PatientQueue(BookedRecords(), patientId)
    }
  }

  /** Book, reschedule, then cancel twice: the cancelled record keeps the
      rescheduled time, and the second cancellation is refused without
      touching the first one's stamp. */
  method RescheduleThenCancelTwice(c: Clinic, patientId: string, doctorId: string, now: int, newId: string)
    returns (again: Result<int>)
    requires c.Valid() && patientId != "" && doctorId != "" && newId != "" && newId !in c.appointments
    modifies c
    ensures c.Valid()
    ensures again == Err(AlreadyCancelled)
    ensures newId in c.appointments
    ensures var a := c.appointments[newId];
      a.status == Cancelled && a.dateTime == now + 120_000 && a.cancelledAt == Some(now + 2)
      && a.modifiedAt == Some(now + 1) && a.bookedAt == now
  {
    var booked := c.BookAppointment(patientId, doctorId, Some(now + 60_000), now, newId);
    assert c.appointments[newId].status == Confirmed;
    var moved := c.ModifyAppointment(newId, Some(now + 120_000), now + 1);
    assert c.appointments[newId].status == Confirmed;
    var cancelled := c.CancelAppointment(newId, now + 2);
    assert c.appointments[newId].status == Cancelled;
    again := c.CancelAppointment(newId, now + 3);
  }
}
