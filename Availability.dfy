/** Doctor availability: the per-date schedule upsert of
    `updateDoctorAvailability` and the half-hour slots of `getTimeSlots`.
    Times of day are minutes; dates are the strings the caller sends. */
module Availability {
  import opened Records

  /** The doctor directory, keyed by `doctorId`. */
  type Doctors = map<string, Doctor>

  /** The schedule object a caller sends; `None` marks a field that is not
      an own property of the object. */
  datatype ScheduleInput = ScheduleInput(date: Option<string>, startTime: Option<int>, endTime: Option<int>, available: Option<bool>)

  /** At most one entry per date. */
  predicate UniqueDates(schedules: seq<Schedule>) {
    forall i, j :: 0 <= i < j < |schedules| ==> schedules[i].date != schedules[j].date
  }

  predicate ValidDoctors(d: Doctors) {
    forall id :: id in d ==> d[id].doctorId == id && UniqueDates(d[id].schedules)
  }

  /** `schedules.findIndex(s => s.date === date)`: the first index holding
      that date, or -1 when no entry has it. */
  function IndexOfDate(schedules: seq<Schedule>, date: string): (i: int)
    ensures -1 <= i < |schedules|
    ensures i >= 0 ==> schedules[i].date == date && forall j :: 0 <= j < i ==> schedules[j].date != date
    ensures i < 0 ==> forall j :: 0 <= j < |schedules| ==> schedules[j].date != date
  {
    if |schedules| == 0 then -1
    else if schedules[0].date == date then 0
    else
      var i := IndexOfDate(schedules[1..], date);
      if i < 0 then -1 else i + 1
  }

  /** Replace the entry with the new entry's date, or append the new entry
      when there is none.  The list grows by at most one, the new entry is
      the one found for its date, every other date keeps its entry at its
      place, and at most one entry per date is kept. */
  function Upsert(schedules: seq<Schedule>, entry: Schedule): (r: seq<Schedule>)
    ensures |schedules| <= |r| <= |schedules| + 1
    ensures IndexOfDate(r, entry.date) >= 0 && r[IndexOfDate(r, entry.date)] == entry
    ensures forall i :: 0 <= i < |schedules| && schedules[i].date != entry.date ==> r[i] == schedules[i]
    ensures forall i :: 0 <= i < |r| && r[i] != entry ==> i < |schedules| && r[i] == schedules[i]
    ensures UniqueDates(schedules) ==> UniqueDates(r)
  {
    var i := IndexOfDate(schedules, entry.date);
    var r := if i >= 0 then schedules[i := entry] else schedules + [entry];
    var at := if i >= 0 then i else |schedules|;
    FirstWithDate(r, entry.date, at);
    r
  }

  /** An index holding the date, with no earlier one holding it, is the
      index `IndexOfDate` finds. */
  lemma FirstWithDate(schedules: seq<Schedule>, date: string, at: int)
    requires 0 <= at < |schedules| && schedules[at].date == date
    requires forall j :: 0 <= j < at ==> schedules[j].date != date
    ensures IndexOfDate(schedules, date) == at
  {
  }

  /** `updateDoctorAvailability`: the doctor id must be present, a schedule
      object given and all four of its fields present.  The doctor is then
      created if unknown (named after its id, in general medicine, with no
      schedules) and the entry, stamped `now`, is upserted by date. */
  function UpdateAvailability(d: Doctors, doctorId: string, input: Option<ScheduleInput>, now: int)
    : (s: Step<Schedule, Doctors>)
    ensures doctorId == "" ==> s.result == Err(DoctorIdRequired)
    ensures doctorId != "" && input.None? ==> s.result == Err(ScheduleRequired)
    ensures doctorId != "" && input.Some?
      && (input.value.date.None? || input.value.startTime.None? || input.value.endTime.None? || input.value.available.None?)
      ==> s.result == Err(IncompleteSchedule)
    ensures s.result.Ok? <==>
      && doctorId != "" && input.Some?
      && input.value.date.Some? && input.value.startTime.Some?
      && input.value.endTime.Some? && input.value.available.Some?
    ensures s.result.Err? ==> s.state == d
    ensures s.result.Ok? ==>
      var e := s.result.value;
      var sched := input.value;
      && e == Schedule(sched.date.value, sched.startTime.value, sched.endTime.value, sched.available.value, now)
      && s.state.Keys == d.Keys + {doctorId}
      && (forall id :: id in d && id != doctorId ==> s.state[id] == d[id])
      && (doctorId in d ==> s.state[doctorId] == d[doctorId].(schedules := s.state[doctorId].schedules))
      && (doctorId !in d ==> s.state[doctorId] == Doctor(doctorId, "Dr. " + doctorId, "General Medicine", [e]))
      && var old_ := if doctorId in d then d[doctorId].schedules else [];
         s.state[doctorId].schedules == Upsert(old_, e)
    ensures ValidDoctors(d) ==> ValidDoctors(s.state)
  {
    if doctorId == "" then Step(Err(DoctorIdRequired), d)
    else if input.None? then Step(Err(ScheduleRequired), d)
    else
      var sched := input.value;
      if sched.date.None? || sched.startTime.None? || sched.endTime.None? || sched.available.None? then
        Step(Err(IncompleteSchedule), d)
      else
        var doctor := if doctorId in d then d[doctorId]
                      else Doctor(doctorId, "Dr. " + doctorId, "General Medicine", []);
        var e := Schedule(sched.date.value, sched.startTime.value, sched.endTime.value, sched.available.value, now);
        Step(Ok(e), d[doctorId := doctor.(schedules := Upsert(doctor.schedules, e))])
  }

  /** `doctor.schedules.find(s => s.date === date)` for a known doctor. */
  function ScheduleFor(d: Doctors, doctorId: string, date: string): (r: Option<Schedule>)
    ensures r.None? <==> doctorId !in d || forall j :: 0 <= j < |d[doctorId].schedules| ==> d[doctorId].schedules[j].date != date
    ensures r.Some? ==> r.value.date == date && r.value in d[doctorId].schedules
  {
    if doctorId !in d then None
    else
      var i := IndexOfDate(d[doctorId].schedules, date);
      if i < 0 then None else Some(d[doctorId].schedules[i])
  }

  /** The half-hour grid from `start` up to, and excluding, `end`: slot `i`
      is `start + 30 * i`, every slot (the last one included) is before
      `end`, and the next step would not be. */
  predicate HalfHourGrid(slots: seq<int>, start: int, end: int) {
    && (forall i :: 0 <= i < |slots| ==> slots[i] == start + 30 * i && slots[i] < end)
    && start + 30 * |slots| >= end
  }

  /** The loop of `getTimeSlots`: push the current time and advance it by
      30 minutes while it is strictly before the end time. */
  method HalfHourSlots(start: int, end: int) returns (slots: seq<int>)
    ensures HalfHourGrid(slots, start, end)
  {
    slots := [];
    var current := start;
    while current < end
      invariant current == start + 30 * |slots|
      invariant forall i :: 0 <= i < |slots| ==> slots[i] == start + 30 * i && slots[i] < end
      decreases end - current
    {
      slots := slots + [current];
      current := current + 30;
    }
  }

  /** The grid is determined by its two ends: it is empty when `start` is
      not before `end` and otherwise has one slot per started half hour. */
  lemma GridLength(slots: seq<int>, start: int, end: int)
    requires HalfHourGrid(slots, start, end)
    ensures |slots| == if start < end then (end - start + 29) / 30 else 0
  {
    var n := |slots|;
    if n > 0 {
      assert slots[n - 1] == start + 30 * (n - 1) && slots[n - 1] < end;
    }
  }

  /** Two grids over the same ends are the same list. */
  lemma GridUnique(a: seq<int>, b: seq<int>, start: int, end: int)
    requires HalfHourGrid(a, start, end) && HalfHourGrid(b, start, end)
    ensures a == b
  {
    GridLength(a, start, end);
    GridLength(b, start, end);
  }

  /** A schedule from 09:00 to 10:00 offers the slots 09:00 and 09:30. */
  lemma NineToTen(slots: seq<int>)
    requires HalfHourGrid(slots, 9 * 60, 10 * 60)
    ensures slots == [9 * 60, 9 * 60 + 30]
  {
    GridLength(slots, 9 * 60, 10 * 60);
  }
}
