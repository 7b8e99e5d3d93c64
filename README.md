# Medqueue appointment core in Dafny

This project models the appointment-handling core of the Medqueue clinic
backend (`core-functions-db.js`). It covers booking an appointment,
cancelling it, rescheduling it, allocating its queue number, checking the
patient in, upserting a doctor's per-date availability, sending a
notification, listing a doctor's half-hour slots and listing a patient's
queue entries.

The database is modelled in memory. It is an appointment table keyed by
`appointmentId`, a doctor directory keyed by `doctorId`, and an append-only
notification log (`ClinicDb.Clinic`). The source loads a record with
`findOne`, assigns its fields and `save`s it. Each method models that as a
value copy that is changed and written back into the map. The clock
(`new Date()`), today's day of the month (`getDate()`), `Math.random()` and
the generated appointment/notification ids are parameters.

Layout:

- `Records.dfy`: appointments, schedules, doctors, notifications, errors and results.
- `Text.dfy`: JavaScript `trim` and `toString().padStart(2, '0')`.
- `QueueCodes.dfy`: the `Q` + day + suffix queue code.
- `Appointments.dfy`: the lifecycle operations as steps on the appointment table, with lemmas about call sequences.
- `Availability.dfy`: the schedule upsert and the slot loop.
- `Notifications.dfy`: message validation and the log append.
- `Queries.dfy`: the patient-queue filter.
- `Clinic.dfy`: the `Clinic` class whose methods run the operations in place. Each method's postcondition ties it to its step function. Each method also keeps the object invariant `Valid`, which says:
  - Every cancelled record, and no other record, has a cancellation stamp.
  - Every checked-in record has a queue number and a check-in stamp.
  - Every queue number is a well-formed code.
  - Each doctor has at most one schedule entry per date.
  - The booking order lists each stored id exactly once.

Conventions: an empty string stands for every identifier or queue number
that JavaScript treats as missing (`null`, `undefined`, `""`). `Option`
marks a date/time or a schedule field that may be absent. Instants are
integers (milliseconds). Times of day are minutes.

The code has no conflict (double-booking) check, writes no status other
than `confirmed` and `cancelled`, and builds no per-doctor daily queue; the
model follows the code. Booking goes straight from the time check to the
save. Rescheduling does not re-check anything against other appointments.
Check-in and rescheduling do not look at the status, so a cancelled
appointment can be checked in or moved.

## Model

| member | source | states |
|---|---|---|
| Text.Trim | core-functions-db.js:476-491 | the trimmed message is the slice after the leading whitespace, followed only by whitespace; it is empty exactly when the message is all whitespace, and otherwise starts and ends with a non-whitespace character |
| Text.TrimIdempotent | core-functions-db.js:491 | trimming an already trimmed message changes nothing |
| Text.Decimal | core-functions-db.js:295 | `toString()` of a non-negative integer gives its digits with no leading zero, and they read back as the number |
| Text.Pad2 | core-functions-db.js:295-297 | the padded day or suffix is exactly two digits that read back as the number |
| QueueCodes.RandomSuffix | core-functions-db.js:296 | the random suffix always lies in 1..99 |
| QueueCodes.QueueCode | core-functions-db.js:294-297 | a generated queue number has 5 characters: `Q` and then 4 digits; the day and the suffix read back from its digits |
| QueueCodes.QueueCodeInjective | core-functions-db.js:297 | different (day, suffix) pairs never give the same code |
| Appointments.Book | core-functions-db.js:96-132 | fails with nothing written when an input is missing; fails when the time is not strictly after now; fails with the store's refusal when the generated id is taken; otherwise adds exactly one record, which is confirmed, not checked in, has no queue number and is stamped `bookedAt = now`; every existing record is unchanged |
| Appointments.Cancel | core-functions-db.js:159-189 | a missing id, an unknown id or an already-cancelled record fails with no change; otherwise only that record's status (now cancelled) and `cancelledAt` change; the invariant and every persistent field are kept |
| Appointments.Reschedule | core-functions-db.js:207-241 | checks for missing inputs, then not-found, then the future time; on success only `dateTime` and `modifiedAt` of that record change, and its status and queue number are untouched |
| Appointments.AssignQueueNumber | core-functions-db.js:260-301 | a record that has a queue number gets the same number back with the table unchanged; otherwise a well-formed code for today's day is stored on that record only |
| Appointments.CheckIn | core-functions-db.js:321-365 | a missing id, an unknown id or a second check-in fails with no change; otherwise the record is checked in, stamped, and holds a non-empty queue number; an existing number is kept, not replaced |
| Appointments.CancelTwice | core-functions-db.js:179-189 | cancellation is not idempotent: the second cancel is refused with AlreadyCancelled and changes nothing |
| Appointments.AssignQueueNumberTwice | core-functions-db.js:282-301 | queue-number allocation is idempotent: a second call, with any day and random draw, answers the same number and changes nothing |
| Appointments.CheckInTwice | core-functions-db.js:343-365 | a second check-in, on any day and with any random draw, is refused; a later allocation on any day and with any draw returns the number the check-in answered and changes nothing |
| Appointments.RescheduleThenCancel | core-functions-db.js:186-241 | rescheduling and then cancelling leaves a cancelled record with both stamps that keeps the rescheduled time |
| Appointments.BookThenAssign | core-functions-db.js:123-132 | a freshly booked record has no queue number, so the first allocation stores the code of that day and draw |
| Availability.IndexOfDate | core-functions-db.js:428-430 | `findIndex` by date returns the first index holding the date, or -1 when none does |
| Availability.Upsert | core-functions-db.js:427-444 | replaces the entry with the same date or appends one; the list grows by at most one, the new entry is the one found for its date, entries for other dates are unchanged, and at most one entry per date is kept |
| Availability.UpdateAvailability | core-functions-db.js:386-446 | a missing doctor id, a missing schedule or any missing field fails with its own error and no change; otherwise the doctor is created if absent (`Dr. <id>`, General Medicine), other doctors are unchanged, and the entry is upserted by date |
| Availability.ScheduleFor | core-functions-db.js:544-548 | finds a doctor's schedule for a date, or nothing when the doctor is unknown or has no entry for that date |
| Availability.HalfHourSlots | core-functions-db.js:550-560 | the slot loop produces `start + 30*i` for each slot i, every slot is strictly before the end time, and the next step would not be |
| Availability.GridLength | core-functions-db.js:555-558 | there are no slots when the start time is not before the end time, otherwise one slot per started half hour |
| Availability.GridUnique | core-functions-db.js:555-558 | the two end times determine the slot list |
| Availability.NineToTen | core-functions-db.js:552-558 | a 09:00 to 10:00 schedule gives exactly the slots 09:00 and 09:30 |
| Notifications.NotificationText | core-functions-db.js:467-482 | a missing patient id, or a message with no non-whitespace character, is refused; otherwise the stored text is the trimmed message and is not empty |
| Notifications.Send | core-functions-db.js:484-498 | a refused notification leaves the log unchanged; an accepted one is appended last with the trimmed message and the send time |
| Notifications.SendTrimmedAgain | core-functions-db.js:476-491 | sending an already trimmed message stores the same text |
| Queries.PatientQueue | core-functions-db.js:567-575 | the patient queue lists exactly the patient's confirmed, checked-in records and nothing else: each entry occurs as many times as such records show it, and the length is the number of such records |
| Queries.QueuedEntriesHaveNumbers | core-functions-db.js:569-571 | every queued entry of well-formed records shows a queue number |
| ClinicDb.StoredQueue | core-functions-db.js:567-580 | over a store listed once per id, the patient queue has an entry for each stored confirmed, checked-in appointment of the patient and no other entry; each entry occurs as many times as such appointments show it, the length is the number of such appointments, and each entry has a queue number |
| ClinicDb.Clinic.constructor | core-functions-db.js:4-6 | the store starts with no appointments, doctors or notifications |
| ClinicDb.Clinic.BookAppointment | core-functions-db.js:96-132 | booking in place equals `Book` on the old table, appends the new id to the booking order only on success, and keeps `Valid` |
| ClinicDb.Clinic.CancelAppointment | core-functions-db.js:159-189 | cancellation in place equals `Cancel` and keeps `Valid` |
| ClinicDb.Clinic.ModifyAppointment | core-functions-db.js:207-241 | rescheduling in place equals `Reschedule` and keeps `Valid` |
| ClinicDb.Clinic.GenerateQueueNumber | core-functions-db.js:260-301 | allocation in place equals `AssignQueueNumber` and keeps `Valid` |
| ClinicDb.Clinic.CheckInPatient | core-functions-db.js:321-365 | check-in in place, which calls `GenerateQueueNumber` when no number exists, equals `CheckIn` and keeps `Valid` |
| ClinicDb.Clinic.UpdateDoctorAvailability | core-functions-db.js:386-446 | the find-or-create and overwrite-or-push in place equal `UpdateAvailability` and keep one entry per date |
| ClinicDb.Clinic.SendNotification | core-functions-db.js:465-498 | the log append in place equals `Send` |
| ClinicDb.Clinic.GetTimeSlots | core-functions-db.js:542-565 | no slots for an unknown doctor, a date without a schedule or an unavailable schedule; otherwise the half-hour grid of the first schedule for that date |
| ClinicDb.Clinic.GetPatientQueue | core-functions-db.js:567-580 | every stored confirmed, checked-in appointment of the patient is listed and nothing else is; each entry occurs as many times as such appointments show it, so there is one entry per appointment; every entry shows a queue number |
| ClinicDb.RescheduleThenCancelTwice | core-functions-db.js:159-241 | book, reschedule, cancel, cancel again: the second cancel is refused, and the record is cancelled with the rescheduled time and both stamps |

## Left out

- `signupPatient` and `loginPatient`: they depend on a password-hashing save hook and on `comparePassword`, neither of which is part of this model.
- Persistence (`findOne`, `save`, `find`, `populate`) is replaced by maps and a sequence. Store failures, and the `catch` branches that report them, are not modelled.
- The Appointment, Doctor and Notification schemas are not part of this model. When a generated appointment id is already in the table, booking fails with `StoreRejected`, as a unique key would make it. This stands in for the unknown schema.
- The existing-number branch of `generateQueueNumber` formats `appointment.updatedAt`. The schema that would provide this timestamp is not part of the model, so `generatedAt` is not modelled.
- Appointments.AssignQueueNumber (and with it `AssignQueueNumberTwice` and `CheckInTwice`): the existing-number branch assumes the schema keeps an `updatedAt` timestamp, since core-functions-db.js:289 calls `updatedAt.toISOString()`. Without that timestamp the call throws, and the `catch` at core-functions-db.js:311-316 answers a failure with no queue number, so a second allocation would fail instead of returning the stored number.
- `checkInPatient` loads the record, and then its nested `generateQueueNumber` call loads the same record again. The model runs these steps one after the other. A concurrent writer between the two loads is not modelled. For the same reason, the branch that returns a failed queue allocation cannot be reached.
- `Math.random`, `Date.now`, `new Date()` and `getDate()` are parameters. Real numbers stand in for floating point. Each operation reads the clock once, whereas the source reads it again for its stamps.
- The model does not cover whether `generateAppointmentId` and `generateNotificationId` produce unique ids. Nothing in the code guarantees it.
- Date and time strings are not modelled. That covers parsing a date/time argument (an unparseable one fails only in the store), the `2000-01-01T` parse in `getTimeSlots`, `toISOString`, and the `HH:MM` formatting of slots. Times are integers.
- `typeof schedule !== 'object'` is modelled only as "schedule absent". The values of schedule fields are not type-checked, and neither does the source check them.
- JavaScript strings are UTF-16 code units; Dafny strings here are Unicode scalar values. This does not affect `trim`, whose whitespace characters all lie in the Basic Multilingual Plane.
- `getDoctors` and `getPatientAppointments` are left out. They pass records through and format dates.
- The route files (`routes/*.js`) are left out. They map results to HTTP status codes and run raw queries.
- Wait-time estimates are not modelled. `getPatientQueue` fills them with the constant `N/A`.
