/** The appointment lifecycle as steps on the appointment table: booking,
    cancellation, rescheduling, queue-number allocation and check-in.  Each
    step answers a `Result` and the table it leaves behind; a failing step
    leaves the table as it was.  `now` is the clock reading of the call. */
module Appointments {
  import opened Records
  import opened QueueCodes
  import opened Text

  /** The appointment store, keyed by `appointmentId`. */
  type Table = map<string, Appointment>

  /** What holds of every record the lifecycle produces: a cancellation
      stamp exactly on cancelled records, a queue number and a check-in
      stamp on every checked-in record, and only well-formed queue codes. */
  predicate WellFormed(a: Appointment) {
    && (a.status == Cancelled <==> a.cancelledAt.Some?)
    && (a.checkedIn ==> a.queueNumber != "" && a.checkedInAt.Some?)
    && (a.queueNumber == "" || IsQueueCode(a.queueNumber))
  }

  predicate ValidTable(t: Table) {
    forall id :: id in t ==> t[id].appointmentId == id && WellFormed(t[id])
  }

  /** What no step ever undoes on a record: its identity, owner, doctor and
      booking stamp stay, a queue number once set stays, a check-in stays,
      and a cancellation stays. */
  predicate Persists(a: Appointment, b: Appointment) {
    && b.appointmentId == a.appointmentId
    && b.patientId == a.patientId
    && b.doctorId == a.doctorId
    && b.bookedAt == a.bookedAt
    && (a.queueNumber != "" ==> b.queueNumber == a.queueNumber)
    && (a.checkedIn ==> b.checkedIn)
    && (a.status == Cancelled ==> b.status == Cancelled)
  }

  /** No record is removed and every kept record `Persists`. */
  predicate Evolves(before: Table, after: Table) {
    forall id :: id in before ==> id in after && Persists(before[id], after[id])
  }

  /** Every record other than `id` is exactly as it was, and no key is added
      or removed. */
  predicate OthersUnchanged(before: Table, after: Table, id: string) {
    && after.Keys == before.Keys
    && forall k :: k in before && k != id ==> after[k] == before[k]
  }

  /** `bookAppointment`: all three inputs must be present and the time
      strictly after now; the new record is confirmed, not checked in and
      without a queue number.  `newId` is the generated appointment id; the
      store refuses it when a record already has it. */
  function Book(t: Table, patientId: string, doctorId: string, dateTime: Option<int>, now: int, newId: string)
    : (s: Step<string, Table>)
    ensures patientId == "" || doctorId == "" || dateTime.None? ==> s.result == Err(MissingBookingFields)
    ensures patientId != "" && doctorId != "" && dateTime.Some? && dateTime.value <= now ==> s.result == Err(NotInFuture)
    ensures patientId != "" && doctorId != "" && dateTime.Some? && dateTime.value > now && newId in t ==> s.result == Err(StoreRejected)
    ensures s.result.Ok? <==> patientId != "" && doctorId != "" && dateTime.Some? && dateTime.value > now && newId !in t
    ensures s.result.Err? ==> s.state == t
    ensures s.result.Ok? ==>
      && s.result.value == newId
      && s.state.Keys == t.Keys + {newId}
      && (forall id :: id in t ==> s.state[id] == t[id])
      && var a := s.state[newId];
         a.appointmentId == newId && a.patientId == patientId && a.doctorId == doctorId
         && a.dateTime == dateTime.value && a.dateTime > now && a.bookedAt == now
         && a.status == Confirmed && a.queueNumber == "" && !a.checkedIn
         && a.cancelledAt.None? && a.modifiedAt.None? && a.checkedInAt.None?
    ensures ValidTable(t) ==> ValidTable(s.state)
    ensures Evolves(t, s.state)
  {
    if patientId == "" || doctorId == "" || dateTime.None? then Step(Err(MissingBookingFields), t)
    else if dateTime.value <= now then Step(Err(NotInFuture), t)
    else if newId in t then Step(Err(StoreRejected), t)
    else
      var a := Appointment(newId, patientId, doctorId, dateTime.value, Confirmed, now, "", false, None, None, None);
      Step(Ok(newId), t[newId := a])
  }

  /** `cancelAppointment`: fails on a missing id, an unknown id and an
      already-cancelled record; otherwise marks that record cancelled and
      stamps `cancelledAt`, answering the stamp. */
  function Cancel(t: Table, id: string, now: int): (s: Step<int, Table>)
    ensures id == "" ==> s.result == Err(IdRequired)
    ensures id != "" && id !in t ==> s.result == Err(NotFound)
    ensures id != "" && id in t && t[id].status == Cancelled ==> s.result == Err(AlreadyCancelled)
    ensures s.result.Ok? <==> id != "" && id in t && t[id].status != Cancelled
    ensures s.result.Err? ==> s.state == t
    ensures s.result.Ok? ==>
      && s.result.value == now
      && OthersUnchanged(t, s.state, id)
      && s.state[id] == t[id].(status := Cancelled, cancelledAt := Some(now))
    ensures ValidTable(t) ==> ValidTable(s.state)
    ensures Evolves(t, s.state)
  {
    if id == "" then Step(Err(IdRequired), t)
    else if id !in t then Step(Err(NotFound), t)
    else if t[id].status == Cancelled then Step(Err(AlreadyCancelled), t)
    else Step(Ok(now), t[id := t[id].(status := Cancelled, cancelledAt := Some(now))])
  }

  /** `modifyAppointment`: fails on a missing id or time, then on an unknown
      id, and only then on a time not strictly after now; otherwise only the
      record's `dateTime` and `modifiedAt` change.  No status is checked: a
      cancelled appointment can be rescheduled and stays cancelled. */
  function Reschedule(t: Table, id: string, newDateTime: Option<int>, now: int): (s: Step<int, Table>)
    ensures id == "" || newDateTime.None? ==> s.result == Err(MissingModifyFields)
    ensures id != "" && newDateTime.Some? && id !in t ==> s.result == Err(NotFound)
    ensures id != "" && newDateTime.Some? && id in t && newDateTime.value <= now ==> s.result == Err(NotInFuture)
    ensures s.result.Ok? <==> id != "" && id in t && newDateTime.Some? && newDateTime.value > now
    ensures s.result.Err? ==> s.state == t
    ensures s.result.Ok? ==>
      && s.result.value == now
      && OthersUnchanged(t, s.state, id)
      && s.state[id] == t[id].(dateTime := newDateTime.value, modifiedAt := Some(now))
    ensures ValidTable(t) ==> ValidTable(s.state)
    ensures Evolves(t, s.state)
  {
    if id == "" || newDateTime.None? then Step(Err(MissingModifyFields), t)
    else if id !in t then Step(Err(NotFound), t)
    else if newDateTime.value <= now then Step(Err(NotInFuture), t)
    else Step(Ok(now), t[id := t[id].(dateTime := newDateTime.value, modifiedAt := Some(now))])
  }

  /** `generateQueueNumber`: a record that already has a queue number gets
      that same number back and nothing changes; otherwise the code for
      today's `day` and the suffix drawn from `random` is stored on the
      record, which is the only change. */
  function AssignQueueNumber(t: Table, id: string, day: int, random: real): (s: Step<string, Table>)
    requires 1 <= day <= 31 && 0.0 <= random < 1.0
    ensures id == "" ==> s.result == Err(IdRequired)
    ensures id != "" && id !in t ==> s.result == Err(NotFound)
    ensures s.result.Ok? <==> id != "" && id in t
    ensures s.result.Err? ==> s.state == t
    ensures s.result.Ok? && t[id].queueNumber != "" ==> s == Step(Ok(t[id].queueNumber), t)
    ensures s.result.Ok? && t[id].queueNumber == "" ==>
      && IsQueueCode(s.result.value)
      && DigitsValue(s.result.value[1..3]) == day
      && OthersUnchanged(t, s.state, id)
      && s.state[id] == t[id].(queueNumber := s.result.value)
    ensures s.result.Ok? ==> id in s.state && s.state[id].queueNumber == s.result.value != ""
    ensures ValidTable(t) ==> ValidTable(s.state)
    ensures Evolves(t, s.state)
  {
    if id == "" then Step(Err(IdRequired), t)
    else if id !in t then Step(Err(NotFound), t)
    else if t[id].queueNumber != "" then Step(Ok(t[id].queueNumber), t)
    else
      var code := QueueCode(day, RandomSuffix(random));
      Step(Ok(code), t[id := t[id].(queueNumber := code)])
  }

  /** `checkInPatient`: fails on a missing or unknown id and on a record
      already checked in; otherwise the record is given a queue number when
      it has none (an existing one is kept), marked checked in and stamped,
      and the queue number is answered.  No status is checked. */
  function CheckIn(t: Table, id: string, now: int, day: int, random: real): (s: Step<string, Table>)
    requires 1 <= day <= 31 && 0.0 <= random < 1.0
    ensures id == "" ==> s.result == Err(IdRequired)
    ensures id != "" && id !in t ==> s.result == Err(NotFound)
    ensures id != "" && id in t && t[id].checkedIn ==> s.result == Err(AlreadyCheckedIn)
    ensures s.result.Ok? <==> id != "" && id in t && !t[id].checkedIn
    ensures s.result.Err? ==> s.state == t
    ensures s.result.Ok? ==>
      && OthersUnchanged(t, s.state, id)
      && var a := s.state[id];
         a.checkedIn && a.checkedInAt == Some(now) && a.queueNumber == s.result.value != ""
         && (t[id].queueNumber != "" ==> a.queueNumber == t[id].queueNumber)
         && a == t[id].(queueNumber := a.queueNumber, checkedIn := true, checkedInAt := Some(now))
    ensures ValidTable(t) ==> ValidTable(s.state)
    ensures Evolves(t, s.state)
  {
    if id == "" then Step(Err(IdRequired), t)
    else if id !in t then Step(Err(NotFound), t)
    else if t[id].checkedIn then Step(Err(AlreadyCheckedIn), t)
    else
      var g := if t[id].queueNumber != "" then Step(Ok(t[id].queueNumber), t)
               else AssignQueueNumber(t, id, day, random);
      var u := g.state;
      Step(Ok(g.result.value), u[id := u[id].(checkedIn := true, checkedInAt := Some(now))])
  }

  /** Cancelling is not idempotent: a second cancellation is refused with
      `AlreadyCancelled` and leaves the first one's stamp in place. */
  lemma CancelTwice(t: Table, id: string, now1: int, now2: int)
    requires Cancel(t, id, now1).result.Ok?
    ensures var t1 := Cancel(t, id, now1).state;
      Cancel(t1, id, now2) == Step(Err(AlreadyCancelled), t1) && t1[id].cancelledAt == Some(now1)
  {
  }

  /** Queue-number allocation is idempotent: a second call, whatever the day
      and random draw, answers the number the first call answered and
      changes nothing. */
  lemma AssignQueueNumberTwice(t: Table, id: string, day1: int, random1: real, day2: int, random2: real)
    requires 1 <= day1 <= 31 && 0.0 <= random1 < 1.0
    requires 1 <= day2 <= 31 && 0.0 <= random2 < 1.0
    ensures var s1 := AssignQueueNumber(t, id, day1, random1);
      AssignQueueNumber(s1.state, id, day2, random2) == s1
  {
  }

  /** Checking in is refused the second time, and the queue number the
      first check-in answered stays on the record: later calls, whatever
      their day and random draw, see it. */
  lemma CheckInTwice(t: Table, id: string, now1: int, now2: int, day1: int, random1: real, day2: int, random2: real)
    requires 1 <= day1 <= 31 && 0.0 <= random1 < 1.0
    requires 1 <= day2 <= 31 && 0.0 <= random2 < 1.0
    requires CheckIn(t, id, now1, day1, random1).result.Ok?
    ensures var s1 := CheckIn(t, id, now1, day1, random1);
      CheckIn(s1.state, id, now2, day2, random2) == Step(Err(AlreadyCheckedIn), s1.state)
      && AssignQueueNumber(s1.state, id, day2, random2) == Step(s1.result, s1.state)
  {
  }

  /** Rescheduling and then cancelling leaves a cancelled record that keeps
      the rescheduled time, with both stamps set. */
  lemma RescheduleThenCancel(t: Table, id: string, newTime: int, now1: int, now2: int)
    requires id != "" && id in t && t[id].status == Confirmed && newTime > now1
    ensures var s1 := Reschedule(t, id, Some(newTime), now1);
      var s2 := Cancel(s1.state, id, now2);
      && s1.result == Ok(now1) && s2.result == Ok(now2)
      && s2.state[id].status == Cancelled && s2.state[id].cancelledAt == Some(now2)
      && s2.state[id].dateTime == newTime && s2.state[id].modifiedAt == Some(now1)
      && s2.state[id].bookedAt == t[id].bookedAt
  {
  }

  /** A freshly booked record has no queue number, so the first allocation
      stores the code of that day and draw. */
  lemma BookThenAssign(t: Table, patientId: string, doctorId: string, when: int, now: int, newId: string, day: int, random: real)
    requires 1 <= day <= 31 && 0.0 <= random < 1.0
    requires patientId != "" && doctorId != "" && when > now && newId != "" && newId !in t
    ensures var s1 := Book(t, patientId, doctorId, Some(when), now, newId);
      var s2 := AssignQueueNumber(s1.state, newId, day, random);
      s2.result == Ok(QueueCode(day, RandomSuffix(random))) && s2.state[newId].queueNumber == s2.result.value
  {
  }
}
